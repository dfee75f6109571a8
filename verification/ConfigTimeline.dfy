/** Runs of the configuration machine: the timeline it refines, and what every run keeps. */
module ConfigTimeline {
  import opened Prelude
  import opened Config
  import opened ConfigHistory
  import opened Reals

  // ---- runs ----

  /** The dashboard's operations. `Save` covers saving, importing and, with the defaults, resetting. */
  datatype Op =
    | Save(submitted: ConfigFile, what: Label)
    | Change(edit: Settings -> Settings, what: Label)
    | Undo
    | Redo
    | Revert(idx: nat)

  predicate Decodes(stack: seq<HistoryEntry>) {
    stack != [] && stack[|stack| - 1].snapshot.Some?
  }

  /** One handler: what it leaves in place when it does not fail, nothing new when it does. */
  function Step(c: ConfigFile, op: Op, now: int): ConfigFile {
    match op
    case Save(submitted, what) => Applied(c, Sanitized(submitted), what, now)
    case Change(edit, what) => Changed(c, edit, what, now)
    case Undo => if Decodes(c.history) then Undone(c, now) else c
    case Redo => if Decodes(c.redo) then Redone(c, now) else c
    case Revert(idx) => (match Reverted(c, idx, now) case Ok(r) => r case Err(_) => c)
  }

  function Run(c: ConfigFile, ops: seq<(Op, int)>): ConfigFile
    decreases |ops|
  {
    if ops == [] then c else Run(Step(c, ops[0].0, ops[0].1), ops[1..])
  }

  // ---- what every run keeps ----

  predicate FlatEntry(e: HistoryEntry) {
    e.snapshot.Some? && e.snapshot.value.history == [] && e.snapshot.value.redo == []
  }

  predicate AllFlat(entries: seq<HistoryEntry>) {
    forall i :: 0 <= i < |entries| ==> FlatEntry(entries[i])
  }

  /** Snapshots decode and are flat, and the two stacks together stay within the capacity. */
  predicate Sound(c: ConfigFile) {
    AllFlat(c.history) && AllFlat(c.redo) && |c.history| + |c.redo| <= HISTORY_CAPACITY
  }

  lemma StepSound(c: ConfigFile, op: Op, now: int)
    requires Sound(c)
    ensures Sound(Step(c, op, now))
  {
  }

  lemma {:induction false} RunSound(c: ConfigFile, ops: seq<(Op, int)>)
    requires Sound(c)
    ensures Sound(Run(c, ops))
    decreases |ops|
  {
    if ops != [] {
      StepSound(c, ops[0].0, ops[0].1);
      RunSound(Step(c, ops[0].0, ops[0].1), ops[1..]);
    }
  }

  predicate EntriesFine(entries: seq<HistoryEntry>) {
    forall i :: 0 <= i < |entries| && entries[i].snapshot.Some? ==> Fine(entries[i].snapshot.value)
  }

  /** Every field is in range now and after any undo or redo. */
  predicate FineEverywhere(c: ConfigFile) {
    Fine(c) && EntriesFine(c.history) && EntriesFine(c.redo)
  }

  ghost predicate KeepsRange(op: Op) {
    op.Change? ==> forall s: Settings :: InRange(s) ==> InRange(op.edit(s))
  }

  /** The dashboard's weight edit, snapped to tenths. */
  function SetWeight(app: string, weight: real): Settings -> Settings {
    (s: Settings) =>
      s.(rateLimit := s.rateLimit.(weights := s.rateLimit.weights[app := Round(weight * 10.0) as real / 10.0]))
  }

  predicate InTenths(x: real) {
    (x * 10.0).Floor as real == x * 10.0
  }

  predicate SameWeight(a: map<string, real>, b: map<string, real>, app: string) {
    (app in a <==> app in b) && (app in a ==> a[app] == b[app])
  }

  /** A weight edit sets the app's weight to the nearest tenth and touches no other app's and no other setting. */
  lemma WeightSnaps(s: Settings, app: string, weight: real)
    ensures var t := SetWeight(app, weight)(s);
            app in t.rateLimit.weights && -0.05 <= t.rateLimit.weights[app] - weight <= 0.05 &&
            InTenths(t.rateLimit.weights[app]) &&
            t.(rateLimit := t.rateLimit.(weights := s.rateLimit.weights)) == s &&
            forall other :: other != app ==> SameWeight(s.rateLimit.weights, t.rateLimit.weights, other)
  {
    var n := Round(weight * 10.0);
    assert SetWeight(app, weight)(s).rateLimit.weights[app] * 10.0 == n as real;
  }

  /** An accepted weight stays in range when it is snapped. */
  lemma WeightKeepsRange(app: string, weight: real, what: Label)
    requires Between(weight, 0.1, 10.0)
    ensures KeepsRange(Change(SetWeight(app, weight), what))
  {
    var n := Round(weight * 10.0);
    assert 1 <= n <= 100;
    var snapped := n as real / 10.0;
    assert Between(snapped, 0.1, 10.0);
  }

  lemma AppliedFine(c: ConfigFile, next: ConfigFile, what: Label, now: int)
    requires FineEverywhere(c) && Fine(next)
    ensures FineEverywhere(Applied(c, next, what, now))
  {
    var entries := c.history + [HistoryEntry(now, what, Some(Flat(c)))];
    assert EntriesFine(entries);
  }

  lemma UndoRedoFine(c: ConfigFile, now: int)
    requires FineEverywhere(c)
    ensures FineEverywhere(Undone(c, now)) && FineEverywhere(Redone(c, now))
  {
  }

  lemma RevertFine(c: ConfigFile, idx: nat, now: int)
    requires FineEverywhere(c)
    ensures FineEverywhere(Step(c, Revert(idx), now))
  {
    if idx < |c.history| && c.history[|c.history| - 1 - idx].snapshot.Some? {
      SanitizeFixedIff(c.history[|c.history| - 1 - idx].snapshot.value);
    }
  }

  lemma StepFine(c: ConfigFile, op: Op, now: int)
    requires FineEverywhere(c) && KeepsRange(op)
    ensures FineEverywhere(Step(c, op, now))
  {
    match op
    case Save(submitted, what) =>
      SanitizeFixedIff(submitted);
      AppliedFine(c, Sanitized(submitted), what, now);
    case Change(edit, what) => AppliedFine(c, c, what, now);
    case Revert(idx) => RevertFine(c, idx, now);
    case _ => UndoRedoFine(c, now);
  }

  /** Undo and redo do not sanitize; every field, the limits among them, stays in range all the same, in the
      current configuration and in every snapshot, as long as it starts that way. */
  lemma {:induction false} RunFine(c: ConfigFile, ops: seq<(Op, int)>)
    requires FineEverywhere(c) && forall i :: 0 <= i < |ops| ==> KeepsRange(ops[i].0)
    ensures FineEverywhere(Run(c, ops))
    decreases |ops|
  {
    if ops != [] {
      StepFine(c, ops[0].0, ops[0].1);
      RunFine(Step(c, ops[0].0, ops[0].1), ops[1..]);
    }
  }

  /** From the defaults everything holds at every point of every run. */
  lemma RunFromDefaults(start: int, ops: seq<(Op, int)>)
    requires forall i :: 0 <= i < |ops| ==> KeepsRange(ops[i].0)
    ensures Sound(Run(Default(start), ops)) && FineEverywhere(Run(Default(start), ops))
  {
    DefaultIsFine(start);
    RunSound(Default(start), ops);
    RunFine(Default(start), ops);
  }

  lemma DefaultIsFine(start: int)
    ensures Sound(Default(start)) && FineEverywhere(Default(start))
  {
    assert DefaultSettings().rateLimit.weights == map[];
  }

  function Undos(n: nat): seq<(Op, int)> {
    seq(n, i => (Undo, 0))
  }

  /** A configuration read back from disk is sanitized, its snapshots are not: every configuration that
      undoing can reach is in range if and only if the recorded ones are. */
  lemma LoadedFineIff(c: ConfigFile)
    requires AllFlat(c.history)
    ensures EntriesFine(c.history) <==> forall n: nat :: Fine(Run(Sanitized(c), Undos(n)))
  {
    SanitizeFixedIff(c);
    forall n: nat
      ensures n <= |c.history| ==>
                (Fine(Run(Sanitized(c), Undos(n))) <==> n == 0 || Fine(c.history[|c.history| - n].snapshot.value))
      ensures n > |c.history| ==> (Fine(Run(Sanitized(c), Undos(n))) <==> Fine(Run(Sanitized(c), Undos(|c.history|))))
    {
      UndosReach(Sanitized(c), n);
    }
    if !EntriesFine(c.history) {
      var i :| 0 <= i < |c.history| && !Fine(c.history[i].snapshot.value);
      assert !Fine(Run(Sanitized(c), Undos(|c.history| - i)));
    } else {
      forall n: nat ensures Fine(Run(Sanitized(c), Undos(n))) {
        assert Fine(Run(Sanitized(c), Undos(Least(n, |c.history|))));
      }
    }
  }

  lemma {:induction false} UndosReach(c: ConfigFile, n: nat)
    requires AllFlat(c.history)
    ensures n <= |c.history| ==>
              (Fine(Run(c, Undos(n))) <==> Fine(if n == 0 then c else c.history[|c.history| - n].snapshot.value))
    ensures n > |c.history| ==> (Fine(Run(c, Undos(n))) <==> Fine(Run(c, Undos(|c.history|))))
    decreases n
  {
    if n > 0 {
      assert Undos(n)[1..] == Undos(n - 1);
      var next := Step(c, Undo, 0);
      if c.history != [] {
        UndosReach(next, n - 1);
        assert Undos(|c.history|)[1..] == Undos(|next.history|);
      } else {
        UndosReach(c, n - 1);
      }
    }
  }

  // ---- the timeline ----

  /** Past, present and future values; the future is what redo brings back, next first. */
  datatype Timeline = Timeline(past: seq<ConfigFile>, present: ConfigFile, future: seq<ConfigFile>)

  /** A configuration's values: no history, no modification time. */
  function Values(c: ConfigFile): ConfigFile {
    Flat(c).(lastModified := 0)
  }

  function SnapshotValues(e: HistoryEntry): ConfigFile {
    match e.snapshot case Some(c) => Values(c) case None => Values(Default(0))
  }

  function Past(entries: seq<HistoryEntry>): (r: seq<ConfigFile>)
    ensures |r| == |entries| && forall i {:trigger r[i]} :: 0 <= i < |r| ==> r[i] == SnapshotValues(entries[i])
  {
    seq(|entries|, i requires 0 <= i < |entries| => SnapshotValues(entries[i]))
  }

  function Future(entries: seq<HistoryEntry>): (r: seq<ConfigFile>)
    ensures |r| == |entries|
    ensures forall i {:trigger r[i]} :: 0 <= i < |r| ==> r[i] == SnapshotValues(entries[|entries| - 1 - i])
  {
    seq(|entries|, i requires 0 <= i < |entries| => SnapshotValues(entries[|entries| - 1 - i]))
  }

  function View(c: ConfigFile): Timeline {
    Timeline(Past(c.history), Values(c), Future(c.redo))
  }

  function Back(t: Timeline): Timeline {
    if t.past == [] then t
    else Timeline(t.past[..|t.past| - 1], t.past[|t.past| - 1], [t.present] + t.future)
  }

  function Forward(t: Timeline): Timeline {
    if t.future == [] then t else Timeline(t.past + [t.present], t.future[0], t.future[1..])
  }

  function Record(t: Timeline, next: ConfigFile): Timeline {
    Timeline(Newest(t.past + [t.present], HISTORY_CAPACITY), next, [])
  }

  function TimelineStep(t: Timeline, op: Op): Timeline {
    match op
    case Save(submitted, _) => Record(t, Values(Sanitized(submitted)))
    case Change(edit, _) => Record(t, t.present.(settings := edit(t.present.settings)))
    case Undo => Back(t)
    case Redo => Forward(t)
    case Revert(idx) =>
      if idx >= |t.past| then t
      else Timeline(t.past[..|t.past| - 1 - idx], Sanitized(t.past[|t.past| - 1 - idx]), [])
  }

  function TimelineRun(t: Timeline, ops: seq<(Op, int)>): Timeline
    decreases |ops|
  {
    if ops == [] then t else TimelineRun(TimelineStep(t, ops[0].0), ops[1..])
  }

  lemma AppliedRefines(c: ConfigFile, next: ConfigFile, what: Label, now: int)
    ensures View(Applied(c, next, what, now)) == Record(View(c), Values(next))
  {
    var entries := c.history + [HistoryEntry(now, what, Some(Flat(c)))];
    assert Past(entries) == Past(c.history) + [Values(c)];
    assert Past(Newest(entries, HISTORY_CAPACITY)) == Newest(Past(entries), HISTORY_CAPACITY);
  }

  lemma PastFirst(entries: seq<HistoryEntry>, n: nat)
    requires n <= |entries|
    ensures Past(entries[..n]) == Past(entries)[..n]
  {
  }

  lemma FutureSnoc(entries: seq<HistoryEntry>, e: HistoryEntry)
    ensures Future(entries + [e]) == [SnapshotValues(e)] + Future(entries)
  {
  }

  lemma UndoneRefines(c: ConfigFile, now: int)
    requires Sound(c)
    ensures View(Undone(c, now)) == Back(View(c))
  {
    if c.history != [] {
      var n := |c.history| - 1;
      PastFirst(c.history, n);
      FutureSnoc(c.redo, HistoryEntry(now, c.history[n].what, Some(Flat(c))));
    }
  }

  lemma RedoneRefines(c: ConfigFile, now: int)
    requires Sound(c)
    ensures View(Redone(c, now)) == Forward(View(c))
  {
    if c.redo != [] {
      var n := |c.redo| - 1;
      assert Future(c.redo[..n]) == Future(c.redo)[1..];
      var e := HistoryEntry(c.redo[n].ts, c.redo[n].what, Some(Flat(c)));
      assert Past(c.history + [e]) == Past(c.history) + [Values(c)];
    }
  }

  lemma RevertedRefines(c: ConfigFile, idx: nat, now: int)
    requires Sound(c)
    ensures View(Step(c, Revert(idx), now)) == TimelineStep(View(c), Revert(idx))
  {
    if idx < |c.history| {
      PastFirst(c.history, |c.history| - 1 - idx);
    }
  }

  lemma StepRefines(c: ConfigFile, op: Op, now: int)
    requires Sound(c)
    ensures View(Step(c, op, now)) == TimelineStep(View(c), op)
  {
    match op
    case Save(submitted, what) => AppliedRefines(c, Sanitized(submitted), what, now);
    case Change(edit, what) => AppliedRefines(c, c, what, now);
    case Undo => UndoneRefines(c, now);
    case Redo => RedoneRefines(c, now);
    case Revert(idx) => RevertedRefines(c, idx, now);
  }

  /** Over every run the history is the past, the redo stack the reversed future. */
  lemma {:induction false} RunRefines(c: ConfigFile, ops: seq<(Op, int)>)
    requires Sound(c)
    ensures View(Run(c, ops)) == TimelineRun(View(c), ops)
    decreases |ops|
  {
    if ops != [] {
      StepSound(c, ops[0].0, ops[0].1);
      StepRefines(c, ops[0].0, ops[0].1);
      RunRefines(Step(c, ops[0].0, ops[0].1), ops[1..]);
    }
  }

  // ---- k undos, k redos ----

  function TimelessEntry(e: HistoryEntry): HistoryEntry {
    e.(ts := 0, snapshot := match e.snapshot case Some(s) => Some(s.(lastModified := 0)) case None => None)
  }

  function TimelessEntries(entries: seq<HistoryEntry>): (r: seq<HistoryEntry>)
    ensures |r| == |entries| && forall i {:trigger r[i]} :: 0 <= i < |r| ==> r[i] == TimelessEntry(entries[i])
  {
    seq(|entries|, i requires 0 <= i < |entries| => TimelessEntry(entries[i]))
  }

  /** Everything but the times: values, labels, snapshots and the order of both stacks. */
  function Timeless(c: ConfigFile): ConfigFile {
    c.(lastModified := 0, history := TimelessEntries(c.history), redo := TimelessEntries(c.redo))
  }

  lemma UndoTimeless(c: ConfigFile, now: int)
    requires Sound(c)
    ensures Sound(Timeless(c)) && Timeless(Undone(c, now)) == Undone(Timeless(c), 0)
  {
    if c.history != [] {
      var n := |c.history| - 1;
      var e := HistoryEntry(now, c.history[n].what, Some(Flat(c)));
      assert TimelessEntries(c.history[..n]) == TimelessEntries(c.history)[..n];
      assert TimelessEntries(c.redo + [e]) == TimelessEntries(c.redo) + [TimelessEntry(e)];
    }
  }

  lemma RedoTimeless(c: ConfigFile, now: int)
    requires Sound(c)
    ensures Sound(Timeless(c)) && Timeless(Redone(c, now)) == Redone(Timeless(c), 0)
  {
    if c.redo != [] {
      var n := |c.redo| - 1;
      var e := HistoryEntry(c.redo[n].ts, c.redo[n].what, Some(Flat(c)));
      assert TimelessEntries(c.redo[..n]) == TimelessEntries(c.redo)[..n];
      assert TimelessEntries(c.history + [e]) == TimelessEntries(c.history) + [TimelessEntry(e)];
    }
  }

  /** No times: what Timeless leaves. */
  predicate HasNoTimes(c: ConfigFile) {
    c.lastModified == 0 && TimelessEntries(c.history) == c.history && TimelessEntries(c.redo) == c.redo
  }

  lemma TimelessHasNoTimes(c: ConfigFile)
    ensures HasNoTimes(Timeless(c))
  {
  }

  lemma RedoneUndone(t: ConfigFile)
    requires Sound(t) && HasNoTimes(t) && t.history != []
    ensures Redone(Undone(t, 0), 0) == t
  {
    var n := |t.history| - 1;
    assert t.history[n] == TimelessEntries(t.history)[n];
    assert t.history == t.history[..n] + [t.history[n]];
    assert (t.redo + [HistoryEntry(0, t.history[n].what, Some(Flat(t)))])[..|t.redo|] == t.redo;
  }

  lemma UndoneRedone(t: ConfigFile)
    requires Sound(t) && HasNoTimes(t) && t.redo != []
    ensures Undone(Redone(t, 0), 0) == t
  {
    var n := |t.redo| - 1;
    assert t.redo[n] == TimelessEntries(t.redo)[n];
    assert t.redo == t.redo[..n] + [t.redo[n]];
    assert (t.history + [HistoryEntry(0, t.redo[n].what, Some(Flat(t)))])[..|t.history|] == t.history;
  }

  /** Redo takes one undo back, up to times. */
  lemma RedoUndoes(c: ConfigFile, now: int, later: int)
    requires Sound(c) && c.history != []
    ensures Timeless(Redone(Undone(c, now), later)) == Timeless(c)
  {
    StepSound(c, Undo, now);
    UndoTimeless(c, now);
    RedoTimeless(Undone(c, now), later);
    TimelessHasNoTimes(c);
    RedoneUndone(Timeless(c));
  }

  /** Undo takes one redo back, up to times. */
  lemma UndoRedoes(c: ConfigFile, now: int, later: int)
    requires Sound(c) && c.redo != []
    ensures Timeless(Undone(Redone(c, now), later)) == Timeless(c)
  {
    StepSound(c, Redo, now);
    RedoTimeless(c, now);
    UndoTimeless(Redone(c, now), later);
    TimelessHasNoTimes(c);
    UndoneRedone(Timeless(c));
  }

  function UndoAll(c: ConfigFile, times: seq<int>): ConfigFile
    decreases |times|
  {
    if times == [] then c else UndoAll(Undone(c, times[0]), times[1..])
  }

  function RedoAll(c: ConfigFile, times: seq<int>): ConfigFile {
    if times == [] then c else Redone(RedoAll(c, times[..|times| - 1]), times[|times| - 1])
  }

  /** k undos followed by k redos, at whatever times, restore the values, both stacks, every snapshot and
      every label; only times differ. */
  lemma {:induction false} UndosThenRedos(c: ConfigFile, times: seq<int>, later: seq<int>)
    requires Sound(c) && |times| == |later| <= |c.history|
    ensures Timeless(RedoAll(UndoAll(c, times), later)) == Timeless(c)
    ensures Sound(RedoAll(UndoAll(c, times), later))
    decreases |times|
  {
    if times != [] {
      var n := |times| - 1;
      var u := Undone(c, times[0]);
      StepSound(c, Undo, times[0]);
      UndosThenRedos(u, times[1..], later[..n]);
      var back := RedoAll(UndoAll(u, times[1..]), later[..n]);
      StepSound(back, Redo, later[n]);
      RedoTimeless(back, later[n]);
      RedoTimeless(u, later[n]);
      RedoUndoes(c, times[0], later[n]);
    }
  }

  // ---- undo takes a change back ----

  /** A bounded stack keeps its newest entry, and loses the oldest when it is full. */
  lemma NewestSnoc<T>(s: seq<T>, x: T, n: nat)
    requires 0 < n && |s| <= n
    ensures var r := Newest(s + [x], n);
            r != [] && r[|r| - 1] == x && r[..|r| - 1] == if |s| < n then s else s[1..]
  {
    if |s| < n {
      assert (s + [x])[..|s|] == s;
    } else {
      assert (s + [x])[1..] == s[1..] + [x];
      assert (s[1..] + [x])[..|s| - 1] == s[1..];
    }
  }

  lemma UndoPops(c: ConfigFile, was: ConfigFile, now: int)
    requires c.history != [] && c.history[|c.history| - 1].snapshot == Some(Flat(was)) && c.redo == []
    ensures var u := Undone(c, now);
            Values(u) == Values(was) && |u.redo| == 1 && u.redo[0].snapshot == Some(Flat(c)) &&
            u.history == c.history[..|c.history| - 1]
  {
  }

  /** Undoing a saved or edited configuration brings back what was there, with its history but for the oldest of 10,000
      entries, and the change can be redone. */
  lemma UndoTakesBack(c: ConfigFile, op: Op, now: int, later: int)
    requires Sound(c) && (op.Save? || op.Change?)
    ensures var done := Step(c, op, now);
            var u := Undone(done, later);
            Values(u) == Values(c) && |u.redo| == 1 && u.redo[0].snapshot == Some(Flat(done)) &&
            u.history == if |c.history| < 10_000 then c.history else c.history[1..]
  {
    var entry := HistoryEntry(now, op.what, Some(Flat(c)));
    NewestSnoc(c.history, entry, HISTORY_CAPACITY);
    StepRecords(c, op, now);
    UndoPops(Step(c, op, now), c, later);
  }

  lemma StepRecords(c: ConfigFile, op: Op, now: int)
    requires op.Save? || op.Change?
    ensures Step(c, op, now).history == Newest(c.history + [HistoryEntry(now, op.what, Some(Flat(c)))], HISTORY_CAPACITY)
    ensures Step(c, op, now).redo == []
  {
  }

  /** An undo that finds an entry it cannot decode changes no value and loses no step but that entry: redoing after it
      leaves everything in place. */
  lemma FailedUndo(c: ConfigFile, now: int, later: int)
    requires c.history != [] && c.history[|c.history| - 1].snapshot.None?
    ensures var u := Undone(c, now);
            Values(u) == Values(c) && u.history == c.history[..|c.history| - 1] && |u.redo| == |c.redo| + 1 &&
            Values(Redone(u, later)) == Values(c) && Redone(u, later).redo == c.redo &&
            |Redone(u, later).history| == |c.history|
  {
    var u := Undone(c, now);
    assert u.redo[..|c.redo|] == c.redo;
  }

  // ---- revert is iterated undo ----

  lemma {:induction false} UndoAllReaches(c: ConfigFile, times: seq<int>)
    requires Sound(c) && 0 < |times| <= |c.history|
    ensures var stored := |c.history| - |times|;
            var u := UndoAll(c, times);
            u.history == c.history[..stored] && Values(u) == SnapshotValues(c.history[stored])
    decreases |times|
  {
    var u := Undone(c, times[0]);
    StepSound(c, Undo, times[0]);
    if |times| == 1 {
      assert UndoAll(c, times) == u;
    } else {
      UndoAllReaches(u, times[1..]);
      var stored := |c.history| - |times|;
      assert c.history[..|c.history| - 1][..stored] == c.history[..stored];
    }
  }

  /** Reverting to display position i gives the values and the remaining history of i + 1 undos, with the
      redo stack dropped, if and only if sanitizing leaves the reverted snapshot alone. */
  lemma RevertIsUndoIff(c: ConfigFile, idx: nat, now: int, times: seq<int>)
    requires Sound(c) && idx < |c.history| && |times| == idx + 1
    ensures var snapshot := c.history[|c.history| - 1 - idx].snapshot.value;
            var r := Reverted(c, idx, now);
            r.Ok? && r.value.redo == [] && r.value.history == UndoAll(c, times).history &&
            (Values(r.value) == Values(UndoAll(c, times)) <==> Fine(snapshot))
  {
    UndoAllReaches(c, times);
    RevertMatches(c, idx, now, UndoAll(c, times));
  }

  lemma RevertMatches(c: ConfigFile, idx: nat, now: int, u: ConfigFile)
    requires Sound(c) && idx < |c.history| && u.history == c.history[..|c.history| - 1 - idx]
    requires Values(u) == SnapshotValues(c.history[|c.history| - 1 - idx])
    ensures var snapshot := c.history[|c.history| - 1 - idx].snapshot.value;
            var r := Reverted(c, idx, now);
            r.Ok? && r.value.redo == [] && r.value.history == u.history &&
            (Values(r.value) == Values(u) <==> Fine(snapshot))
  {
    var stored := |c.history| - 1 - idx;
    RevertedIs(c, idx, now);
    SanitizedValues(c.history[stored].snapshot.value, c.history[..stored], now);
  }

  lemma RevertedIs(c: ConfigFile, idx: nat, now: int)
    requires Sound(c) && idx < |c.history|
    ensures var stored := |c.history| - 1 - idx;
            c.history[stored].snapshot.Some? && Reverted(c, idx, now) ==
            Ok(Sanitized(c.history[stored].snapshot.value).(history := c.history[..stored], redo := [], lastModified := now))
    ensures SnapshotValues(c.history[|c.history| - 1 - idx]) == Values(c.history[|c.history| - 1 - idx].snapshot.value)
  {
    assert FlatEntry(c.history[|c.history| - 1 - idx]);
  }

  lemma SanitizedValues(s: ConfigFile, history: seq<HistoryEntry>, now: int)
    ensures Values(Sanitized(s).(history := history, redo := [], lastModified := now)) == Values(s) <==>
            Fine(s)
  {
    SanitizeFixedIff(s);
  }

  /** From the defaults on, at every point of every run, reverting to display position i is i + 1 undos with
      the redo stack dropped. */
  lemma RevertIsUndo(start: int, ops: seq<(Op, int)>, idx: nat, now: int, times: seq<int>)
    requires forall i :: 0 <= i < |ops| ==> KeepsRange(ops[i].0)
    requires idx < |Run(Default(start), ops).history| && |times| == idx + 1
    ensures var c := Run(Default(start), ops);
            var r := Reverted(c, idx, now);
            r.Ok? && r.value.redo == [] && r.value.history == UndoAll(c, times).history &&
            Values(r.value) == Values(UndoAll(c, times))
  {
    RunFromDefaults(start, ops);
    RevertIsUndoIff(Run(Default(start), ops), idx, now, times);
  }
}
