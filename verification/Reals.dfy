/** Real arithmetic for the limiter: repeated scaling between two bounds. */
module Reals {
  import opened Config

  function MaxReal(a: real, b: real): real {
    if a < b then b else a
  }

  function MinReal(a: real, b: real): real {
    if a < b then a else b
  }

  /** Half away from zero. */
  function Round(x: real): int {
    if x >= 0.0 then (x + 0.5).Floor else -(0.5 - x).Floor
  }

  /** The factor of a given load. */
  function Shrink(load: real): real
    requires load >= 0.0
  {
    1.0 / (1.0 + load)
  }

  function Pow(x: real, n: nat): real {
    if n == 0 then 1.0 else x * Pow(x, n - 1)
  }

  /** x p, capped; x p, floored. */
  function Capped(x: real, p: real, hi: real): real {
    MinReal(x * p, hi)
  }

  function Floored(x: real, p: real, lo: real): real {
    MaxReal(x * p, lo)
  }

  function Scale(x: real, f: real, lo: real, hi: real): real {
    ClampReal(x * f, lo, hi)
  }

  /** n steps of scaling by `f`, each clamped. */
  function Scaled(x: real, f: real, lo: real, hi: real, n: nat): real {
    if n == 0 then x else Scale(Scaled(x, f, lo, hi, n - 1), f, lo, hi)
  }

  lemma TimesMonotone(a: real, b: real, c: real)
    requires a <= b && c >= 0.0
    ensures a * c <= b * c
  {
  }

  lemma Positive(a: real, b: real)
    requires a > 0.0 && b > 0.0
    ensures a * b > 0.0
  {
  }

  lemma DivideMonotone(a: real, b: real, d: real)
    requires a <= b && d > 0.0
    ensures a / d <= b / d
  {
  }

  lemma Associate(a: real, b: real, c: real)
    ensures (a * b) * c == a * (b * c)
  {
  }

  lemma InverseAntitone(a: real, b: real)
    requires 0.0 < a <= b
    ensures 0.0 < 1.0 / b <= 1.0 / a
    ensures 1.0 / a * a == 1.0
  {
  }

  lemma {:induction false} PowGrows(g: real, n: nat)
    requires g >= 1.0
    ensures Pow(g, n) >= 1.0 && Pow(g, n) >= 1.0 + n as real * (g - 1.0)
  {
    if n > 0 {
      PowGrows(g, n - 1);
      var p, d := Pow(g, n - 1), g - 1.0;
      TimesMonotone(1.0, p, d);
      assert g * p == p + p * d;
      assert n as real * d == (n - 1) as real * d + d;
    }
  }

  lemma {:induction false} PowShrinks(k: real, n: nat)
    requires 0.0 < k <= 1.0
    ensures 0.0 < Pow(k, n) <= 1.0
  {
    if n > 0 {
      PowShrinks(k, n - 1);
      TimesMonotone(k, 1.0, Pow(k, n - 1));
    }
  }

  lemma {:induction false} PowInverse(k: real, g: real, n: nat)
    requires k * g == 1.0
    ensures Pow(k, n) * Pow(g, n) == 1.0
  {
    if n > 0 {
      PowInverse(k, g, n - 1);
      var a, b := Pow(k, n - 1), Pow(g, n - 1);
      Associate(k, a, g * b);
      Associate(a, g, b);
      assert a * (g * b) == g * (a * b) by { assert a * g == g * a; Associate(g, a, b); }
    }
  }

  lemma {:induction false} PowOne(n: nat)
    ensures Pow(1.0, n) == 1.0
  {
    if n > 0 {
      PowOne(n - 1);
    }
  }

  lemma GrowStep(y: real, x: real, g: real, lo: real, hi: real)
    requires 0.0 < lo <= hi && lo <= x && g >= 1.0 && y == MinReal(x, hi)
    ensures Scale(y, g, lo, hi) == MinReal(x * g, hi)
  {
    TimesMonotone(1.0, g, x);
    TimesMonotone(1.0, g, hi);
  }

  lemma GrowNext(y: real, x: real, g: real, p: real, q: real, lo: real, hi: real)
    requires 0.0 < lo <= x <= hi && g >= 1.0 && p >= 1.0 && q == g * p && y == Capped(x, p, hi)
    ensures Scale(y, g, lo, hi) == Capped(x, q, hi)
  {
    TimesMonotone(1.0, p, x);
    GrowStep(y, x * p, g, lo, hi);
    Associate(x, p, g);
  }

  /** Growing and capping n times is growing n times and capping once. */
  lemma {:induction false} GrowClosed(x: real, g: real, lo: real, hi: real, n: nat)
    requires 0.0 < lo <= x <= hi && g >= 1.0
    ensures Scaled(x, g, lo, hi, n) == Capped(x, Pow(g, n), hi)
  {
    if n > 0 {
      GrowClosed(x, g, lo, hi, n - 1);
      PowGrows(g, n - 1);
      GrowNext(Scaled(x, g, lo, hi, n - 1), x, g, Pow(g, n - 1), Pow(g, n), lo, hi);
    }
  }

  lemma ShrinkStep(y: real, x: real, k: real, lo: real, hi: real)
    requires 0.0 < lo <= hi && 0.0 < x <= hi && 0.0 < k <= 1.0 && y == MaxReal(x, lo)
    ensures Scale(y, k, lo, hi) == MaxReal(x * k, lo)
  {
    var a, b := x * k, lo * k;
    assert a <= x by { TimesMonotone(k, 1.0, x); }
    assert b <= lo by { TimesMonotone(k, 1.0, lo); }
    assert y * k == if x < lo then b else a;
  }

  lemma ShrinkNext(y: real, x: real, k: real, p: real, q: real, lo: real, hi: real)
    requires 0.0 < lo <= x <= hi && 0.0 < k <= 1.0 && 0.0 < p <= 1.0 && q == k * p && y == Floored(x, p, lo)
    ensures Scale(y, k, lo, hi) == Floored(x, q, lo)
  {
    var z := x * p;
    assert 0.0 < z <= x by {
      TimesMonotone(p, 1.0, x);
      Positive(x, p);
    }
    ShrinkStep(y, z, k, lo, hi);
    Associate(x, p, k);
  }

  /** Shrinking and flooring n times is shrinking n times and flooring once. */
  lemma {:induction false} ShrinkClosed(x: real, k: real, lo: real, hi: real, n: nat)
    requires 0.0 < lo <= x <= hi && 0.0 < k <= 1.0
    ensures Scaled(x, k, lo, hi, n) == Floored(x, Pow(k, n), lo)
  {
    if n > 0 {
      ShrinkClosed(x, k, lo, hi, n - 1);
      PowShrinks(k, n - 1);
      ShrinkNext(Scaled(x, k, lo, hi, n - 1), x, k, Pow(k, n - 1), Pow(k, n), lo, hi);
    }
  }

  /** Enough steps of a positive size cover any distance. */
  function Enough(distance: real, step: real): (n: nat)
    requires step > 0.0 && distance >= 0.0
    ensures n as real * step >= distance
  {
    var n := (distance / step).Floor + 1;
    TimesMonotone(distance / step, n as real, step);
    n
  }

  /** Linear bound for growth: n (g - 1) x covers the distance. */
  lemma GrowReaches(x: real, g: real, hi: real, n: nat)
    requires 0.0 < x && g >= 1.0 && n as real * ((g - 1.0) * x) >= hi - x
    ensures x * Pow(g, n) >= hi
  {
    PowGrows(g, n);
    TimesMonotone(1.0 + n as real * (g - 1.0), Pow(g, n), x);
    Associate(n as real, g - 1.0, x);
    assert (1.0 + n as real * (g - 1.0)) * x == x + n as real * (g - 1.0) * x;
  }

  /** Linear bound for shrinking by 1 / (1 + load). */
  lemma ShrinkReaches(x: real, load: real, lo: real, n: nat)
    requires 0.0 < lo && load > 0.0 && n as real * (load * lo) >= x - lo
    ensures x * Pow(Shrink(load), n) <= lo
  {
    var k, g := Shrink(load), 1.0 + load;
    InverseAntitone(1.0, g);
    PowShrinks(k, n);
    PowInverse(k, g, n);
    GrowReaches(lo, g, x, n);
    TimesMonotone(x, lo * Pow(g, n), Pow(k, n));
    Associate(lo, Pow(g, n), Pow(k, n));
  }

  /** Where n steps of growth end: x g^n, capped; at the cap exactly when x g^n covers the distance, and
      at the latest after (hi - x) / ((g - 1) x) steps. */
  predicate GrownTo(after: real, x: real, g: real, hi: real, n: nat) {
    after == Capped(x, Pow(g, n), hi) && (after == hi <==> x * Pow(g, n) >= hi) &&
    (n as real * ((g - 1.0) * x) >= hi - x ==> after == hi)
  }

  /** Where n steps under a load end: x / (1 + load)^n, floored; at the floor exactly when that covers the
      distance, and at the latest after (x - lo) / (load lo) steps. */
  predicate ShrunkTo(after: real, x: real, load: real, lo: real, n: nat)
    requires load >= 0.0
  {
    after == Floored(x, Pow(Shrink(load), n), lo) && (after == lo <==> x * Pow(Shrink(load), n) <= lo) &&
    (n as real * (load * lo) >= x - lo ==> after == lo)
  }

  lemma GrowBound(x: real, g: real, lo: real, hi: real, n: nat)
    requires 0.0 < lo <= x <= hi && g >= 1.0
    ensures GrownTo(Scaled(x, g, lo, hi, n), x, g, hi, n)
  {
    GrowClosed(x, g, lo, hi, n);
    if n as real * ((g - 1.0) * x) >= hi - x {
      GrowReaches(x, g, hi, n);
    }
  }

  lemma ShrinkFactor(load: real)
    requires load > 0.0
    ensures 0.0 < Shrink(load) <= 1.0
  {
    InverseAntitone(1.0, 1.0 + load);
  }

  lemma ShrinkBound(x: real, load: real, lo: real, hi: real, n: nat)
    requires 0.0 < lo <= x <= hi && load > 0.0
    ensures ShrunkTo(Scaled(x, Shrink(load), lo, hi, n), x, load, lo, n)
  {
    ShrinkFactor(load);
    ShrinkClosed(x, Shrink(load), lo, hi, n);
    if n as real * (load * lo) >= x - lo {
      ShrinkReaches(x, load, lo, n);
    }
  }

  /** The cap is reached at some point if and only if there is growth, or nothing to cover. */
  lemma GrowReachesIff(x: real, g: real, lo: real, hi: real)
    requires 0.0 < lo <= x <= hi && g >= 1.0
    ensures (exists n: nat :: Scaled(x, g, lo, hi, n) == hi) <==> g > 1.0 || x == hi
  {
    if g > 1.0 {
      GrowEnds(x, g, lo, hi);
    } else {
      var none: nat := 0;
      assert Scaled(x, g, lo, hi, none) == x;
      if n: nat :| Scaled(x, g, lo, hi, n) == hi {
        NoGrowth(x, lo, hi, n);
      }
    }
  }

  lemma GrowEnough(x: real, g: real, lo: real, hi: real, step: real, n: nat)
    requires 0.0 < lo <= x <= hi && g >= 1.0 && step == (g - 1.0) * x && n as real * step >= hi - x
    ensures Scaled(x, g, lo, hi, n) == hi
  {
    GrowReaches(x, g, hi, n);
    GrowClosed(x, g, lo, hi, n);
  }

  lemma GrowEnds(x: real, g: real, lo: real, hi: real)
    requires 0.0 < lo <= x <= hi && g > 1.0
    ensures exists n: nat :: Scaled(x, g, lo, hi, n) == hi
  {
    var step := (g - 1.0) * x;
    assert step > 0.0 by { Positive(g - 1.0, x); }
    GrowEnough(x, g, lo, hi, step, Enough(hi - x, step));
  }

  lemma NoGrowth(x: real, lo: real, hi: real, n: nat)
    requires 0.0 < lo <= x <= hi
    ensures Scaled(x, 1.0, lo, hi, n) == x
  {
    GrowClosed(x, 1.0, lo, hi, n);
    PowOne(n);
  }

  lemma ShrinkEnds(x: real, load: real, lo: real, hi: real)
    requires 0.0 < lo <= x <= hi && load > 0.0
    ensures exists n: nat :: Scaled(x, Shrink(load), lo, hi, n) == lo
  {
    Positive(load, lo);
    var n := Enough(x - lo, load * lo);
    ShrinkBound(x, load, lo, hi, n);
    assert Scaled(x, Shrink(load), lo, hi, n) == lo;
  }

  lemma BothMonotone(x: real, y: real, f: real, g: real)
    requires 0.0 <= x <= y && 0.0 <= f <= g
    ensures x * f <= y * g
  {
    assert x * f <= y * f by { TimesMonotone(x, y, f); }
    assert f * y <= g * y by { TimesMonotone(f, g, y); }
  }

  lemma ScaleMonotone(x: real, y: real, f: real, g: real, lo: real, hi: real)
    requires 0.0 <= x <= y && 0.0 <= f <= g && lo <= hi
    ensures Scale(x, f, lo, hi) <= Scale(y, g, lo, hi)
  {
    BothMonotone(x, y, f, g);
  }

  function Product(x: real, m: real, w: real): real {
    x * m * w
  }

  lemma ProductMonotone(x: real, y: real, m: real, w: real)
    requires x <= y && m >= 0.0 && w >= 0.0
    ensures Product(x, m, w) <= Product(y, m, w)
  {
    TimesMonotone(x, y, m);
    TimesMonotone(x * m, y * m, w);
  }
}
