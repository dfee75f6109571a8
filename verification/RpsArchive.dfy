/** The dashboard's request-rate archive (src/assets/ts/rps-archive.ts): samples roll up into tiers of time
    buckets, windows are read back and re-binned. Times are whole seconds, rates real numbers. */
module RpsArchive {
  import opened Prelude

  // ---- one tier ----

  datatype Sample = Sample(t: int, v: real)

  datatype Open = Open(t: int, sum: real, n: nat)

  /** Closed buckets (start and mean) and the open one. */
  datatype TierState = TierState(ts: seq<int>, vs: seq<real>, open: Option<Open>)

  const EMPTY: TierState := TierState([], [], None)

  function Bucket(t: int, res: nat): int
    requires res > 0
  {
    t / res * res
  }

  /** How many leading times lie before the retention bound. */
  function Expired(ts: seq<int>, bound: int): (k: nat)
    ensures k <= |ts| && (forall i :: 0 <= i < k ==> ts[i] < bound) && (k < |ts| ==> ts[k] >= bound)
  {
    if ts == [] || ts[0] >= bound then 0 else 1 + Expired(ts[1..], bound)
  }

  function Closed(s: TierState): TierState {
    if s.open.Some? && s.open.value.n > 0
    then s.(ts := s.ts + [s.open.value.t], vs := s.vs + [s.open.value.sum / s.open.value.n as real])
    else s
  }

  /** The tier after one sample: into the open bucket, or that one is closed, a new one opened and old
      buckets dropped. */
  function Pushed(s: TierState, res: nat, keep: nat, x: Sample): TierState
    requires res > 0 && |s.ts| == |s.vs|
  {
    var bt := Bucket(x.t, res);
    if s.open.Some? && s.open.value.t == bt then
      s.(open := Some(Open(bt, s.open.value.sum + x.v, s.open.value.n + 1)))
    else
      var c := Closed(s);
      var k := Expired(c.ts, x.t - keep);
      TierState(c.ts[k..], c.vs[k..], Some(Open(bt, x.v, 1)))
  }

  class Tier {
    var ts: seq<int>
    var vs: seq<real>
    var open: Option<Open>

    function State(): TierState
      reads this
    {
      TierState(ts, vs, open)
    }

    predicate Valid()
      reads this
    {
      |ts| == |vs| && (open.Some? ==> open.value.n > 0)
    }

    constructor ()
      ensures Valid() && State() == EMPTY
    {
      ts, vs, open := [], [], None;
    }

    /** The tier's part of `pushSample`. */
    method Push(res: nat, keep: nat, x: Sample)
      requires Valid() && res > 0
      modifies this
      ensures Valid() && State() == Pushed(old(State()), res, keep, x)
    {
      var bt := Bucket(x.t, res);
      if open.Some? && open.value.t == bt {
        open := Some(Open(bt, open.value.sum + x.v, open.value.n + 1));
      } else {
        if open.Some? {
          ts := ts + [open.value.t];
          vs := vs + [open.value.sum / open.value.n as real];
        }
        open := Some(Open(bt, x.v, 1));
        ts, vs := DropExpired(ts, vs, x.t - keep);
      }
    }
  }

  method DropExpired(ts: seq<int>, vs: seq<real>, bound: int) returns (ts': seq<int>, vs': seq<real>)
    requires |ts| == |vs|
    ensures ts' == ts[Expired(ts, bound)..] && vs' == vs[Expired(ts, bound)..]
  {
    ts', vs' := ts, vs;
    ghost var k := 0;
    while ts' != [] && ts'[0] < bound
      invariant 0 <= k <= |ts| && ts' == ts[k..] && vs' == vs[k..]
      invariant k + Expired(ts', bound) == Expired(ts, bound)
      decreases |ts'|
    {
      ts', vs' := ts'[1..], vs'[1..];
      k := k + 1;
    }
  }

  /** `pushSample` of one series: every tier gets the sample. */
  method PushSample(tiers: seq<Tier>, x: Sample)
    requires |tiers| == TIERS && forall i :: 0 <= i < TIERS ==> tiers[i].Valid()
    requires forall i, j :: 0 <= i < j < TIERS ==> tiers[i] != tiers[j]
    modifies tiers
    ensures forall i :: 0 <= i < TIERS ==>
              old(|tiers[i].ts| == |tiers[i].vs|) && tiers[i].Valid() &&
              tiers[i].State() == Pushed(old(tiers[i].State()), Res(i), Keep(i), x)
  {
    for i := 0 to TIERS
      invariant forall j :: 0 <= j < TIERS ==> tiers[j].Valid()
      invariant forall j :: i <= j < TIERS ==> tiers[j].State() == old(tiers[j].State())
      invariant forall j :: 0 <= j < i ==> tiers[j].State() == Pushed(old(tiers[j].State()), Res(j), Keep(j), x)
    {
      tiers[i].Push(Res(i), Keep(i), x);
    }
  }

  const TIERS: nat := 10

  /** `RPS_TIERS`: bucket width and retention, finest first. */
  function Res(i: nat): (r: nat)
    ensures r > 0
  {
    match i
    case 0 => 1 case 1 => 4 case 2 => 12 case 3 => 60 case 4 => 300
    case 5 => 900 case 6 => 1800 case 7 => 7200 case 8 => 21_600 case _ => 86_400
  }

  function Keep(i: nat): nat {
    match i
    case 0 => 600 case 1 => 2400 case 2 => 3600 case 3 => 36_000 case 4 => 180_000
    case 5 => 259_200 case 6 => 1_209_600 case 7 => 5_259_600 case 8 => 7_889_400 case _ => 34_560_000
  }

  // ---- batch grouping ----

  predicate Ordered(xs: seq<Sample>) {
    forall i, j :: 0 <= i < j < |xs| ==> xs[i].t <= xs[j].t
  }

  function GroupSum(xs: seq<Sample>, res: nat, b: int): real
    requires res > 0
  {
    if xs == [] then 0.0
    else GroupSum(xs[..|xs| - 1], res, b) + if Bucket(xs[|xs| - 1].t, res) == b then xs[|xs| - 1].v else 0.0
  }

  function GroupCount(xs: seq<Sample>, res: nat, b: int): nat
    requires res > 0
  {
    if xs == [] then 0
    else GroupCount(xs[..|xs| - 1], res, b) + if Bucket(xs[|xs| - 1].t, res) == b then 1 else 0
  }

  /** The time of the first sample of the last group. */
  function LastGroupStart(xs: seq<Sample>, res: nat): int
    requires res > 0 && xs != []
  {
    var n := |xs| - 1;
    if n > 0 && Bucket(xs[n - 1].t, res) == Bucket(xs[n].t, res) then LastGroupStart(xs[..n], res) else xs[n].t
  }

  function Streamed(xs: seq<Sample>, res: nat, keep: nat): (s: TierState)
    requires res > 0
    ensures |s.ts| == |s.vs|
  {
    if xs == [] then EMPTY else Pushed(Streamed(xs[..|xs| - 1], res, keep), res, keep, xs[|xs| - 1])
  }

  predicate Increasing(ts: seq<int>) {
    forall i, j :: 0 <= i < j < |ts| ==> ts[i] < ts[j]
  }

  /** The groups before the last one that are still within the retention bound. */
  predicate Retained(xs: seq<Sample>, res: nat, keep: nat, b: int)
    requires res > 0 && xs != []
  {
    GroupCount(xs, res, b) > 0 && b < Bucket(xs[|xs| - 1].t, res) && b >= LastGroupStart(xs, res) - keep
  }

  /** What the tier holds after `xs`: the last group open, and of the groups before it exactly the retained
      ones closed, in order, each with its mean. */
  ghost predicate Grouped(s: TierState, xs: seq<Sample>, res: nat, keep: nat)
    requires res > 0
  {
    |s.ts| == |s.vs| && Increasing(s.ts) &&
    if xs == [] then s == EMPTY
    else
      var last := Bucket(xs[|xs| - 1].t, res);
      s.open == Some(Open(last, GroupSum(xs, res, last), GroupCount(xs, res, last))) &&
      (forall b {:trigger b in s.ts} {:trigger Retained(xs, res, keep, b)} :: b in s.ts <==> Retained(xs, res, keep, b)) &&
      forall i :: 0 <= i < |s.ts| ==> IsMean(xs, res, s.ts[i], s.vs[i])
  }

  predicate IsMean(xs: seq<Sample>, res: nat, b: int, v: real)
    requires res > 0
  {
    GroupCount(xs, res, b) > 0 && v == GroupSum(xs, res, b) / GroupCount(xs, res, b) as real
  }

  lemma BucketMonotone(a: int, b: int, res: nat)
    requires a <= b && res > 0
    ensures Bucket(a, res) <= Bucket(b, res) <= b < Bucket(b, res) + res
  {
    var p, q := a / res, b / res;
    assert a == p * res + a % res && b == q * res + b % res;
    assert (q + 1) * res == q * res + res;
    if q < p {
      TimesLe(q + 1, p, res);
      assert false;
    }
    TimesLe(p, q, res);
  }

  lemma TimesLe(a: int, b: int, c: nat)
    requires a <= b
    ensures a * c <= b * c
  {
  }

  /** No sample is after the last bucket. */
  lemma {:induction false} NoLaterGroup(xs: seq<Sample>, res: nat, b: int)
    requires res > 0 && Ordered(xs) && xs != [] && b > Bucket(xs[|xs| - 1].t, res)
    ensures GroupCount(xs, res, b) == 0 && GroupSum(xs, res, b) == 0.0
  {
    var n := |xs| - 1;
    if n > 0 {
      BucketMonotone(xs[n - 1].t, xs[n].t, res);
      NoLaterGroup(xs[..n], res, b);
    }
  }

  lemma {:induction false} LastGroupBounds(xs: seq<Sample>, res: nat)
    requires res > 0 && Ordered(xs) && xs != []
    ensures Bucket(xs[|xs| - 1].t, res) <= LastGroupStart(xs, res) <= xs[|xs| - 1].t
    ensures GroupCount(xs, res, Bucket(xs[|xs| - 1].t, res)) > 0
  {
    var n := |xs| - 1;
    BucketMonotone(xs[n].t, xs[n].t, res);
    if n > 0 && Bucket(xs[n - 1].t, res) == Bucket(xs[n].t, res) {
      LastGroupBounds(xs[..n], res);
    }
  }

  /** A sample that starts a new group leaves every earlier group as it was. */
  lemma OtherGroups(xs: seq<Sample>, res: nat, b: int)
    requires res > 0 && xs != [] && b != Bucket(xs[|xs| - 1].t, res)
    ensures var n := |xs| - 1;
            GroupCount(xs, res, b) == GroupCount(xs[..n], res, b) && GroupSum(xs, res, b) == GroupSum(xs[..n], res, b)
  {
  }

  lemma SameGroupStep(s: TierState, xs: seq<Sample>, res: nat, keep: nat)
    requires res > 0 && Ordered(xs) && |xs| > 1 && Grouped(s, xs[..|xs| - 1], res, keep)
    requires Bucket(xs[|xs| - 2].t, res) == Bucket(xs[|xs| - 1].t, res)
    ensures Grouped(Pushed(s, res, keep, xs[|xs| - 1]), xs, res, keep)
  {
    var n := |xs| - 1;
    var last := Bucket(xs[n].t, res);
    LastGroupBounds(xs[..n], res);
    forall b ensures Retained(xs, res, keep, b) <==> Retained(xs[..n], res, keep, b) {
      if b != last {
        OtherGroups(xs, res, b);
      }
    }
    forall i | 0 <= i < |s.ts| ensures IsMean(xs, res, s.ts[i], s.vs[i]) {
      assert s.ts[i] in s.ts;
      OtherGroups(xs, res, s.ts[i]);
    }
  }

  lemma NewGroupRetained(xs: seq<Sample>, res: nat, keep: nat, b: int)
    requires res > 0 && Ordered(xs) && |xs| > 1 && Bucket(xs[|xs| - 2].t, res) != Bucket(xs[|xs| - 1].t, res)
    ensures var before := xs[..|xs| - 1];
            Retained(xs, res, keep, b) <==>
            (Retained(before, res, keep, b) || b == Bucket(xs[|xs| - 2].t, res)) && b >= xs[|xs| - 1].t - keep
  {
    var n := |xs| - 1;
    var before, last, prev := xs[..n], Bucket(xs[n].t, res), Bucket(xs[n - 1].t, res);
    BucketMonotone(xs[n - 1].t, xs[n].t, res);
    LastGroupBounds(before, res);
    if b != last {
      OtherGroups(xs, res, b);
      if b > prev {
        NoLaterGroup(before, res, b);
      }
    }
  }

  lemma ClosedHolds(s: TierState, xs: seq<Sample>, res: nat, keep: nat)
    requires res > 0 && Ordered(xs) && |xs| > 1 && Grouped(s, xs[..|xs| - 1], res, keep)
    requires Bucket(xs[|xs| - 2].t, res) != Bucket(xs[|xs| - 1].t, res)
    ensures var c, prev := Closed(s), Bucket(xs[|xs| - 2].t, res);
            |c.ts| == |c.vs| && Increasing(c.ts) &&
            (forall b :: b in c.ts <==> Retained(xs[..|xs| - 1], res, keep, b) || b == prev) &&
            forall i :: 0 <= i < |c.ts| ==> IsMean(xs, res, c.ts[i], c.vs[i])
  {
    var n := |xs| - 1;
    var before, c, prev := xs[..n], Closed(s), Bucket(xs[n - 1].t, res);
    LastGroupBounds(before, res);
    BucketMonotone(xs[n - 1].t, xs[n].t, res);
    forall i | 0 <= i < |s.ts| ensures s.ts[i] < prev {
      assert s.ts[i] in s.ts;
    }
    forall i | 0 <= i < |c.ts| ensures IsMean(xs, res, c.ts[i], c.vs[i]) {
      assert c.ts[i] <= prev;
      OtherGroups(xs, res, c.ts[i]);
      if i < |s.ts| {
        assert IsMean(before, res, s.ts[i], s.vs[i]);
      }
    }
  }

  /** Dropping the expired times of an increasing list keeps exactly those at or after the bound. */
  lemma ExpiredExact(ts: seq<int>, bound: int)
    requires Increasing(ts)
    ensures var kept := ts[Expired(ts, bound)..];
            Increasing(kept) && forall b :: b in kept <==> b in ts && b >= bound
  {
    var k := Expired(ts, bound);
    forall b ensures b in ts[k..] <==> b in ts && b >= bound {
      if b in ts && b >= bound {
        var i :| 0 <= i < |ts| && ts[i] == b;
        assert ts[k..][i - k] == b;
      }
    }
  }

  lemma NewGroupKeeps(c: TierState, xs: seq<Sample>, res: nat, keep: nat, k: nat)
    requires res > 0 && Ordered(xs) && |xs| > 1 && Bucket(xs[|xs| - 2].t, res) != Bucket(xs[|xs| - 1].t, res)
    requires Increasing(c.ts) && k == Expired(c.ts, xs[|xs| - 1].t - keep)
    requires forall b :: b in c.ts <==> Retained(xs[..|xs| - 1], res, keep, b) || b == Bucket(xs[|xs| - 2].t, res)
    ensures Increasing(c.ts[k..]) && forall b :: b in c.ts[k..] <==> Retained(xs, res, keep, b)
  {
    ExpiredExact(c.ts, xs[|xs| - 1].t - keep);
    forall b ensures b in c.ts[k..] <==> Retained(xs, res, keep, b) {
      NewGroupRetained(xs, res, keep, b);
    }
  }

  lemma NewGroupStep(s: TierState, xs: seq<Sample>, res: nat, keep: nat)
    requires res > 0 && Ordered(xs) && |xs| > 1 && Grouped(s, xs[..|xs| - 1], res, keep)
    requires Bucket(xs[|xs| - 2].t, res) != Bucket(xs[|xs| - 1].t, res)
    ensures Grouped(Pushed(s, res, keep, xs[|xs| - 1]), xs, res, keep)
  {
    var n, c := |xs| - 1, Closed(s);
    var k := Expired(c.ts, xs[n].t - keep);
    ClosedHolds(s, xs, res, keep);
    NewGroupKeeps(c, xs, res, keep, k);
    NewGroupOpens(xs, res);
    assert s.open.value.t == Bucket(xs[n - 1].t, res);
    forall i | 0 <= i < |c.ts[k..]| ensures IsMean(xs, res, c.ts[k..][i], c.vs[k..][i]) {
      assert IsMean(xs, res, c.ts[k + i], c.vs[k + i]);
    }
  }

  lemma NewGroupOpens(xs: seq<Sample>, res: nat)
    requires res > 0 && Ordered(xs) && |xs| > 1 && Bucket(xs[|xs| - 2].t, res) != Bucket(xs[|xs| - 1].t, res)
    ensures var last := Bucket(xs[|xs| - 1].t, res);
            GroupCount(xs, res, last) == 1 && GroupSum(xs, res, last) == xs[|xs| - 1].v
  {
    var n := |xs| - 1;
    BucketMonotone(xs[n - 1].t, xs[n].t, res);
    NoLaterGroup(xs[..n], res, Bucket(xs[n].t, res));
  }

  /** Streaming is batch grouping: after any samples in time order each tier holds the groups of equal
      floor(t / res), the last one open, the earlier ones closed with their means and cut to the retention
      bound of the moment the last group began. */
  lemma {:induction false} StreamIsBatch(xs: seq<Sample>, res: nat, keep: nat)
    requires res > 0 && Ordered(xs)
    ensures Grouped(Streamed(xs, res, keep), xs, res, keep)
  {
    if xs != [] {
      var n := |xs| - 1;
      StreamIsBatch(xs[..n], res, keep);
      var s := Streamed(xs[..n], res, keep);
      if n == 0 {
        OneSample(xs, res, keep);
      } else if Bucket(xs[n - 1].t, res) == Bucket(xs[n].t, res) {
        SameGroupStep(s, xs, res, keep);
      } else {
        NewGroupStep(s, xs, res, keep);
      }
    }
  }

  lemma OneSample(xs: seq<Sample>, res: nat, keep: nat)
    requires res > 0 && |xs| == 1
    ensures Grouped(Pushed(EMPTY, res, keep, xs[0]), xs, res, keep)
  {
    assert xs[..0] == [];
    var last := Bucket(xs[0].t, res);
    assert GroupCount(xs, res, last) == 1 && GroupSum(xs, res, last) == xs[0].v;
    forall b ensures !Retained(xs, res, keep, b) {
      assert GroupCount(xs[..0], res, b) == 0;
    }
  }

  predicate OnGrid(ts: seq<int>, res: nat)
    requires res > 0
  {
    forall i :: 0 <= i < |ts| ==> ts[i] % res == 0
  }

  lemma {:induction false} GridSpread(ts: seq<int>, res: nat)
    requires res > 0 && Increasing(ts) && OnGrid(ts, res) && ts != []
    ensures ts[|ts| - 1] - ts[0] >= (|ts| - 1) * res
  {
    var n := |ts| - 1;
    if n > 0 {
      GridSpread(ts[..n], res);
      GridStep(ts[n - 1], ts[n], res);
      assert (n - 1) * res + res == n * res;
    }
  }

  lemma GridStep(a: int, b: int, res: nat)
    requires res > 0 && a < b && a % res == 0 && b % res == 0
    ensures b - a >= res
  {
    var p, q := a / res, b / res;
    assert a == p * res && b == q * res;
    if q <= p {
      TimesLe(q, p, res);
    } else {
      TimesLe(p + 1, q, res);
      assert (p + 1) * res == p * res + res;
    }
  }

  lemma BucketOnGrid(t: int, res: nat)
    requires res > 0
    ensures Bucket(t, res) % res == 0
  {
    MultipleOf(t / res, res);
  }

  lemma MultipleOf(k: int, res: nat)
    requires res > 0
    ensures (k * res) % res == 0
  {
    var m := k * res;
    assert m == m / res * res + m % res;
    if m % res != 0 {
      var d := k - m / res;
      assert d * res == m % res;
      if d <= 0 {
        TimesLe(d, 0, res);
      } else {
        TimesLe(1, d, res);
      }
    }
  }

  lemma {:induction false} GroupOnGrid(xs: seq<Sample>, res: nat, b: int)
    requires res > 0 && GroupCount(xs, res, b) > 0
    ensures b % res == 0
  {
    var n := |xs| - 1;
    if Bucket(xs[n].t, res) == b {
      BucketOnGrid(xs[n].t, res);
    } else {
      GroupOnGrid(xs[..n], res, b);
    }
  }

  /** A tier never holds more than keep / res closed buckets, whatever the samples. */
  lemma StreamBounded(xs: seq<Sample>, res: nat, keep: nat)
    requires res > 0 && Ordered(xs)
    ensures |Streamed(xs, res, keep).ts| <= keep / res
  {
    StreamIsBatch(xs, res, keep);
    var ts := Streamed(xs, res, keep).ts;
    if ts != [] {
      var last := Bucket(xs[|xs| - 1].t, res);
      forall i | 0 <= i < |ts| ensures ts[i] % res == 0 {
        assert ts[i] in ts;
        GroupOnGrid(xs, res, ts[i]);
      }
      assert ts[0] in ts && ts[|ts| - 1] in ts;
      LastGroupBounds(xs, res);
      BucketOnGrid(xs[|xs| - 1].t, res);
      GridBound(ts, last, res, keep);
    }
  }

  lemma GridBound(ts: seq<int>, last: int, res: nat, keep: nat)
    requires res > 0 && Increasing(ts) && OnGrid(ts, res) && ts != [] && last % res == 0
    requires ts[|ts| - 1] < last <= ts[0] + keep
    ensures |ts| <= keep / res
  {
    GridSpread(ts, res);
    GridStep(ts[|ts| - 1], last, res);
    assert (|ts| - 1) * res + res == |ts| * res;
    QuotientAtLeast(|ts|, keep, res);
  }

  lemma QuotientAtLeast(n: nat, keep: nat, res: nat)
    requires res > 0 && n * res <= keep
    ensures n <= keep / res
  {
    if keep / res < n {
      TimesLe(keep / res + 1, n, res);
      assert false;
    }
  }
}
