/** Reading a window of the request-rate archive back (`window` and `rebin` in
    src/assets/ts/rps-archive.ts). */
module RpsWindow {
  import opened RpsArchive

  const TARGET_POINTS: nat := 300

  datatype Point = Point(t: real, v: real)

  predicate TimesIncrease(ps: seq<Point>) {
    forall i, j :: 0 <= i < j < |ps| ==> ps[i].t < ps[j].t
  }

  // ---- the points of a window ----

  /** The finest tier whose retention covers the window, else the coarsest. */
  method TierFor(windowSec: nat) returns (ti: nat)
    ensures ti < TIERS && (Keep(ti) >= windowSec || ti == TIERS - 1)
    ensures forall i :: 0 <= i < ti ==> Keep(i) < windowSec
  {
    for i := 0 to TIERS
      invariant forall j :: 0 <= j < i ==> Keep(j) < windowSec
    {
      if Keep(i) >= windowSec {
        return i;
      }
    }
    ti := TIERS - 1;
  }

  function Center(t: int, res: nat): real {
    t as real + res as real / 2.0
  }

  /** Buckets, closed then open, that end after `t0`; the open one is always taken. */
  function Points(s: TierState, res: nat, t0: int): seq<Point>
    requires |s.ts| == |s.vs| && (s.open.Some? ==> s.open.value.n > 0)
  {
    ClosedPoints(s.ts, s.vs, res, t0) +
    if s.open.Some? then [Point(Center(s.open.value.t, res), s.open.value.sum / s.open.value.n as real)] else []
  }

  function ClosedPoints(ts: seq<int>, vs: seq<real>, res: nat, t0: int): seq<Point>
    requires |ts| == |vs|
  {
    if ts == [] then []
    else
      var n := |ts| - 1;
      ClosedPoints(ts[..n], vs[..n], res, t0) + if ts[n] + res > t0 then [Point(Center(ts[n], res), vs[n])] else []
  }

  method WindowPoints(s: TierState, res: nat, t0: int) returns (pts: seq<Point>)
    requires |s.ts| == |s.vs| && (s.open.Some? ==> s.open.value.n > 0)
    ensures pts == Points(s, res, t0)
  {
    pts := [];
    for i := 0 to |s.ts|
      invariant pts == ClosedPoints(s.ts[..i], s.vs[..i], res, t0)
    {
      assert s.ts[..i + 1][..i] == s.ts[..i] && s.vs[..i + 1][..i] == s.vs[..i];
      if s.ts[i] + res > t0 {
        pts := pts + [Point(Center(s.ts[i], res), s.vs[i])];
      }
    }
    assert s.ts[..|s.ts|] == s.ts && s.vs[..|s.vs|] == s.vs;
    if s.open.Some? {
      pts := pts + [Point(Center(s.open.value.t, res), s.open.value.sum / s.open.value.n as real)];
    }
  }

  ghost predicate Shown(ts: seq<int>, vs: seq<real>, res: nat, t0: int, p: Point)
    requires |ts| == |vs|
  {
    exists i :: 0 <= i < |ts| && ts[i] + res > t0 && p == Point(ts[i] as real + res as real / 2.0, vs[i])
  }

  /** A closed bucket is shown, at its middle, exactly when it ends after the window begins. */
  lemma {:induction false} ShownIff(ts: seq<int>, vs: seq<real>, res: nat, t0: int, p: Point)
    requires |ts| == |vs|
    ensures p in ClosedPoints(ts, vs, res, t0) <==> Shown(ts, vs, res, t0, p)
  {
    if ts != [] {
      var n := |ts| - 1;
      ShownIff(ts[..n], vs[..n], res, t0, p);
      if Shown(ts, vs, res, t0, p) {
        var i :| 0 <= i < |ts| && ts[i] + res > t0 && p == Point(ts[i] as real + res as real / 2.0, vs[i]);
        assert i < n ==> ts[..n][i] == ts[i] && vs[..n][i] == vs[i];
      }
      if Shown(ts[..n], vs[..n], res, t0, p) {
        var i :| 0 <= i < n && ts[..n][i] + res > t0 && p == Point(ts[..n][i] as real + res as real / 2.0, vs[..n][i]);
        assert ts[i] == ts[..n][i] && vs[i] == vs[..n][i];
      }
    }
  }

  /** The window of a tier: the means of the groups of samples that end inside it, and the group that is still open. */
  lemma WindowIff(xs: seq<Sample>, res: nat, keep: nat, t0: int, p: Point)
    requires res > 0 && Ordered(xs) && xs != []
    ensures var s := Streamed(xs, res, keep);
            s.open.Some? && s.open.value.n > 0 &&
            (p in Points(s, res, t0) <==>
             Shown(s.ts, s.vs, res, t0, p) ||
             p == Point(s.open.value.t as real + res as real / 2.0, s.open.value.sum / s.open.value.n as real))
  {
    StreamIsBatch(xs, res, keep);
    LastGroupBounds(xs, res);
    PointsIff(Streamed(xs, res, keep), res, t0, p);
  }

  lemma PointsIff(s: TierState, res: nat, t0: int, p: Point)
    requires |s.ts| == |s.vs| && s.open.Some? && s.open.value.n > 0
    ensures p in Points(s, res, t0) <==>
            Shown(s.ts, s.vs, res, t0, p) ||
            p == Point(s.open.value.t as real + res as real / 2.0, s.open.value.sum / s.open.value.n as real)
  {
    ShownIff(s.ts, s.vs, res, t0, p);
  }

  lemma {:induction false} ClosedPointsIncrease(ts: seq<int>, vs: seq<real>, res: nat, t0: int)
    requires |ts| == |vs| && Increasing(ts)
    ensures TimesIncrease(ClosedPoints(ts, vs, res, t0))
    ensures forall p :: p in ClosedPoints(ts, vs, res, t0) ==> ts != [] && p.t <= Center(ts[|ts| - 1], res)
  {
    if ts != [] {
      var n := |ts| - 1;
      ClosedPointsIncrease(ts[..n], vs[..n], res, t0);
    }
  }

  lemma PointsOrdered(s: TierState, res: nat, t0: int)
    requires |s.ts| == |s.vs| && Increasing(s.ts) && s.open.Some? && s.open.value.n > 0
    requires s.ts != [] ==> s.ts[|s.ts| - 1] < s.open.value.t
    ensures TimesIncrease(Points(s, res, t0))
  {
    ClosedPointsIncrease(s.ts, s.vs, res, t0);
  }

  /** The points of a window of any tier filled in time order come in increasing time. */
  lemma PointsIncrease(xs: seq<Sample>, res: nat, keep: nat, t0: int)
    requires res > 0 && Ordered(xs)
    ensures var s := Streamed(xs, res, keep);
            (s.open.Some? ==> s.open.value.n > 0) && TimesIncrease(Points(s, res, t0))
  {
    StreamIsBatch(xs, res, keep);
    if xs != [] {
      var s := Streamed(xs, res, keep);
      LastGroupBounds(xs, res);
      assert s.ts != [] ==> s.ts[|s.ts| - 1] in s.ts;
      PointsOrdered(s, res, t0);
    }
  }

  // ---- re-binning ----

  function Width(t0: real, t1: real, target: nat): real
    requires target > 0
  {
    (t1 - t0) / target as real
  }

  /** The bin of a time; times outside the window go to the first or last bin. */
  function Bin(t: real, t0: real, w: real, target: nat): (b: nat)
    requires w > 0.0 && target > 0
    ensures b < target
  {
    var b := ((t - t0) / w).Floor;
    if b < 0 then 0 else if b >= target then target - 1 else b
  }

  /** A time inside the window lies within half a width of the center of its bin. */
  lemma BinIsNear(t: real, t0: real, t1: real, target: nat)
    requires target > 0 && t0 <= t <= t1 && t0 < t1
    ensures var w := Width(t0, t1, target);
            w > 0.0 && -w / 2.0 <= t - (t0 + (Bin(t, t0, w, target) as real + 0.5) * w) <= w / 2.0
  {
    var w := Width(t0, t1, target);
    var q := (t - t0) / w;
    QuotientTimes(t - t0, w);
    QuotientTimes(t1 - t0, target as real);
    QuotientRange(q, w, target as real, t - t0, t1 - t0);
    var b := Bin(t, t0, w, target);
    assert q - 1.0 <= b as real <= q;
    AtCenter(q, b, q - b as real, w, t - t0);
  }

  lemma QuotientTimes(x: real, d: real)
    requires d > 0.0
    ensures x / d * d == x && (x > 0.0 ==> x / d > 0.0)
  {
  }

  lemma QuotientRange(q: real, w: real, n: real, x: real, span: real)
    requires w > 0.0 && q * w == x && w * n == span && 0.0 <= x <= span
    ensures 0.0 <= q <= n
  {
    if q < 0.0 {
      PositiveTimes(-q, w);
    } else if q > n {
      PositiveTimes(q - n, w);
    }
  }

  lemma PositiveTimes(a: real, b: real)
    requires a > 0.0 && b > 0.0
    ensures a * b > 0.0
  {
  }

  /** A point at a fraction `f` of bin `b`. */
  lemma AtCenter(q: real, b: int, f: real, w: real, x: real)
    requires w > 0.0 && q == b as real + f && 0.0 <= f <= 1.0 && q * w == x
    ensures -w / 2.0 <= x - (b as real + 0.5) * w <= w / 2.0
  {
    assert x - (b as real + 0.5) * w == (f - 0.5) * w;
    NotNegativeTimes(f, w);
    NotNegativeTimes(1.0 - f, w);
    assert (1.0 - f) * w == w - f * w;
  }

  lemma NotNegativeTimes(a: real, b: real)
    requires a >= 0.0 && b >= 0.0
    ensures a * b >= 0.0
  {
  }

  function BinSum(ps: seq<Point>, t0: real, w: real, target: nat, b: nat): real
    requires w > 0.0 && target > 0
  {
    if ps == [] then 0.0
    else BinSum(ps[..|ps| - 1], t0, w, target, b) +
         if Bin(ps[|ps| - 1].t, t0, w, target) == b then ps[|ps| - 1].v else 0.0
  }

  function BinCount(ps: seq<Point>, t0: real, w: real, target: nat, b: nat): nat
    requires w > 0.0 && target > 0
  {
    if ps == [] then 0
    else BinCount(ps[..|ps| - 1], t0, w, target, b) +
         if Bin(ps[|ps| - 1].t, t0, w, target) == b then 1 else 0
  }

  function BinCenter(t0: real, w: real, b: nat): real {
    t0 + (b as real + 0.5) * w
  }

  function Mean(sum: real, n: nat): real
    requires n > 0
  {
    sum / n as real
  }

  /** A bin that holds points: their mean at its center. */
  function BinPoint(ps: seq<Point>, t0: real, w: real, target: nat, b: nat): Point
    requires w > 0.0 && target > 0 && BinCount(ps, t0, w, target, b) > 0
  {
    Point(BinCenter(t0, w, b), Mean(BinSum(ps, t0, w, target, b), BinCount(ps, t0, w, target, b)))
  }

  /** The bins below `k` that hold points. */
  function Bins(ps: seq<Point>, t0: real, w: real, target: nat, k: nat): seq<Point>
    requires w > 0.0 && target > 0
  {
    if k == 0 then []
    else
      Bins(ps, t0, w, target, k - 1) +
      if BinCount(ps, t0, w, target, k - 1) == 0 then [] else [BinPoint(ps, t0, w, target, k - 1)]
  }

  function Rebinned(ps: seq<Point>, target: nat, t0: real, t1: real): seq<Point>
    requires target > 0
  {
    if |ps| <= target || t1 <= t0 then ps else Bins(ps, t0, Width(t0, t1, target), target, target)
  }

  /** `rebin`: sums and counts accumulated in an array of bins. */
  method Rebin(ps: seq<Point>, target: nat, t0: real, t1: real) returns (out: seq<Point>)
    requires target > 0
    ensures out == Rebinned(ps, target, t0, t1)
  {
    if |ps| <= target || t1 <= t0 {
      return ps;
    }
    var w := Width(t0, t1, target);
    var sums, counts := Accumulate(ps, t0, w, target);
    out := [];
    for b := 0 to target
      invariant out == Bins(ps, t0, w, target, b)
    {
      if counts[b] > 0 {
        out := out + [Point(BinCenter(t0, w, b), Mean(sums[b], counts[b]))];
      }
    }
  }

  method Accumulate(ps: seq<Point>, t0: real, w: real, target: nat) returns (sums: array<real>, counts: array<nat>)
    requires w > 0.0 && target > 0
    ensures fresh(sums) && fresh(counts) && sums.Length == counts.Length == target
    ensures forall b :: 0 <= b < target ==> sums[b] == BinSum(ps, t0, w, target, b)
    ensures forall b :: 0 <= b < target ==> counts[b] == BinCount(ps, t0, w, target, b)
  {
    sums, counts := new real[target](_ => 0.0), new nat[target](_ => 0);
    for i := 0 to |ps|
      invariant forall b :: 0 <= b < target ==> sums[b] == BinSum(ps[..i], t0, w, target, b)
      invariant forall b :: 0 <= b < target ==> counts[b] == BinCount(ps[..i], t0, w, target, b)
    {
      assert ps[..i + 1][..i] == ps[..i];
      var b := Bin(ps[i].t, t0, w, target);
      sums[b] := sums[b] + ps[i].v;
      counts[b] := counts[b] + 1;
    }
    assert ps[..|ps|] == ps;
  }

  // ---- nothing is lost, nothing is counted twice ----

  function PointTotal(ps: seq<Point>): real {
    if ps == [] then 0.0 else PointTotal(ps[..|ps| - 1]) + ps[|ps| - 1].v
  }

  function SumOfBins(ps: seq<Point>, t0: real, w: real, target: nat, k: nat): real
    requires w > 0.0 && target > 0
  {
    if k == 0 then 0.0 else SumOfBins(ps, t0, w, target, k - 1) + BinSum(ps, t0, w, target, k - 1)
  }

  function CountOfBins(ps: seq<Point>, t0: real, w: real, target: nat, k: nat): nat
    requires w > 0.0 && target > 0
  {
    if k == 0 then 0 else CountOfBins(ps, t0, w, target, k - 1) + BinCount(ps, t0, w, target, k - 1)
  }

  /** One more point adds its value to the bins from its own on. */
  lemma {:induction false} BinsGainPoint(ps: seq<Point>, t0: real, w: real, target: nat, k: nat)
    requires w > 0.0 && target > 0 && ps != []
    ensures var (n, mine) := (|ps| - 1, Bin(ps[|ps| - 1].t, t0, w, target) < k);
            SumOfBins(ps, t0, w, target, k) ==
              SumOfBins(ps[..n], t0, w, target, k) + (if mine then ps[n].v else 0.0) &&
            CountOfBins(ps, t0, w, target, k) == CountOfBins(ps[..n], t0, w, target, k) + (if mine then 1 else 0)
  {
    if k > 0 {
      BinsGainPoint(ps, t0, w, target, k - 1);
    }
  }

  lemma {:induction false} EmptyBins(t0: real, w: real, target: nat, k: nat)
    requires w > 0.0 && target > 0
    ensures SumOfBins([], t0, w, target, k) == 0.0 && CountOfBins([], t0, w, target, k) == 0
  {
    if k > 0 {
      EmptyBins(t0, w, target, k - 1);
    }
  }

  /** Every point is in exactly one bin: the bins' sums and counts add up to the points'. */
  lemma {:induction false} BinsConserve(ps: seq<Point>, t0: real, w: real, target: nat)
    requires w > 0.0 && target > 0
    ensures SumOfBins(ps, t0, w, target, target) == PointTotal(ps)
    ensures CountOfBins(ps, t0, w, target, target) == |ps|
  {
    if ps == [] {
      EmptyBins(t0, w, target, target);
    } else {
      BinsGainPoint(ps, t0, w, target, target);
      BinsConserve(ps[..|ps| - 1], t0, w, target);
    }
  }

  ghost predicate FromBin(ps: seq<Point>, t0: real, w: real, target: nat, k: nat, p: Point)
    requires w > 0.0 && target > 0
  {
    exists b: nat :: b < k && IsMeanOf(ps, t0, w, target, b, p)
  }

  /** A point at the center of bin `b` that weighs, times the bin's points, what they add up to. */
  predicate IsMeanOf(ps: seq<Point>, t0: real, w: real, target: nat, b: nat, p: Point)
    requires w > 0.0 && target > 0
  {
    var n := BinCount(ps, t0, w, target, b);
    n > 0 && p.t == t0 + (b as real + 0.5) * w && p.v * n as real == BinSum(ps, t0, w, target, b)
  }

  lemma BinPointIff(ps: seq<Point>, t0: real, w: real, target: nat, b: nat, p: Point)
    requires w > 0.0 && target > 0 && BinCount(ps, t0, w, target, b) > 0
    ensures p == BinPoint(ps, t0, w, target, b) <==> IsMeanOf(ps, t0, w, target, b, p)
  {
    PointIff(BinCenter(t0, w, b), BinSum(ps, t0, w, target, b), BinCount(ps, t0, w, target, b), p);
  }

  lemma PointIff(t: real, sum: real, n: nat, p: Point)
    requires n > 0
    ensures p == Point(t, Mean(sum, n)) <==> p.t == t && p.v * n as real == sum
  {
    MeanIff(sum, n, p.v);
  }

  lemma MeanIff(sum: real, n: nat, v: real)
    requires n > 0
    ensures v == Mean(sum, n) <==> v * n as real == sum
  {
    QuotientTimes(sum, n as real);
    if v * n as real == sum {
      OneFactor(v, Mean(sum, n), n as real);
    }
  }

  lemma OneFactor(a: real, b: real, d: real)
    requires d > 0.0 && a * d == b * d
    ensures a == b
  {
    assert (a - b) * d == a * d - b * d;
    if a < b {
      PositiveTimes(b - a, d);
    } else if a > b {
      PositiveTimes(a - b, d);
    }
  }

  /** The output is one mean per bin that holds points, and nothing else. */
  lemma {:induction false} BinsExact(ps: seq<Point>, t0: real, w: real, target: nat, k: nat, p: Point)
    requires w > 0.0 && target > 0
    ensures p in Bins(ps, t0, w, target, k) <==> FromBin(ps, t0, w, target, k, p)
  {
    if k > 0 {
      BinsExact(ps, t0, w, target, k - 1, p);
      if FromBin(ps, t0, w, target, k, p) {
        var b: nat :| b < k && IsMeanOf(ps, t0, w, target, b, p);
        assert b < k - 1 ==> FromBin(ps, t0, w, target, k - 1, p);
      }
      if BinCount(ps, t0, w, target, k - 1) > 0 {
        BinPointIff(ps, t0, w, target, k - 1, p);
      }
    }
  }

  /** In bin order. */
  lemma {:induction false} BinsIncrease(ps: seq<Point>, t0: real, w: real, target: nat, k: nat)
    requires w > 0.0 && target > 0
    ensures |Bins(ps, t0, w, target, k)| <= k && TimesIncrease(Bins(ps, t0, w, target, k))
  {
    if k > 0 {
      BinsIncrease(ps, t0, w, target, k - 1);
      var before := Bins(ps, t0, w, target, k - 1);
      forall i | 0 <= i < |before| ensures before[i].t < BinCenter(t0, w, k - 1) {
        BeforeCenter(ps, t0, w, target, k - 1, before[i]);
      }
    }
  }

  lemma BeforeCenter(ps: seq<Point>, t0: real, w: real, target: nat, k: nat, p: Point)
    requires w > 0.0 && target > 0 && p in Bins(ps, t0, w, target, k)
    ensures p.t < BinCenter(t0, w, k)
  {
    BinsExact(ps, t0, w, target, k, p);
    var b: nat :| b < k && IsMeanOf(ps, t0, w, target, b, p);
    CentersIncrease(t0, w, b, k);
  }

  lemma CentersIncrease(t0: real, w: real, a: nat, b: nat)
    requires w > 0.0 && a < b
    ensures BinCenter(t0, w, a) < BinCenter(t0, w, b)
  {
    var d := (b - a) as real;
    assert d * w > 0.0;
    assert (b as real + 0.5) * w == (a as real + 0.5) * w + d * w;
  }

  /** Re-binning a window of at most `target` bins: never more points than asked for, in increasing time
      whenever the input is. */
  lemma RebinnedShape(ps: seq<Point>, target: nat, t0: real, t1: real)
    requires target > 0 && TimesIncrease(ps)
    ensures TimesIncrease(Rebinned(ps, target, t0, t1))
    ensures t0 < t1 ==> |Rebinned(ps, target, t0, t1)| <= target
    ensures t0 < t1 && ps != [] ==> Rebinned(ps, target, t0, t1) != []
  {
    if |ps| > target && t0 < t1 {
      var w := Width(t0, t1, target);
      BinsIncrease(ps, t0, w, target, target);
      BinsConserve(ps, t0, w, target);
      SomeBin(ps, t0, w, target, target);
    }
  }

  lemma {:induction false} SomeBin(ps: seq<Point>, t0: real, w: real, target: nat, k: nat)
    requires w > 0.0 && target > 0 && CountOfBins(ps, t0, w, target, k) > 0
    ensures Bins(ps, t0, w, target, k) != []
  {
    if BinCount(ps, t0, w, target, k - 1) == 0 {
      SomeBin(ps, t0, w, target, k - 1);
    }
  }

  /** A window read from a tier filled in time order: at most 300 points, in increasing time, and some if
      the tier has any. */
  lemma WindowShape(xs: seq<Sample>, res: nat, keep: nat, windowSec: nat, now: int)
    requires res > 0 && Ordered(xs) && windowSec > 0
    ensures var s := Streamed(xs, res, keep);
            (s.open.Some? ==> s.open.value.n > 0) &&
            var pts := Points(s, res, now - windowSec);
            var out := Rebinned(pts, TARGET_POINTS, (now - windowSec) as real, now as real);
            |out| <= TARGET_POINTS && TimesIncrease(out) && (out == [] <==> xs == [])
  {
    PointsIncrease(xs, res, keep, now - windowSec);
    StreamIsBatch(xs, res, keep);
    var pts := Points(Streamed(xs, res, keep), res, now - windowSec);
    RebinnedShape(pts, TARGET_POINTS, (now - windowSec) as real, now as real);
  }
}
