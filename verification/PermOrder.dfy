/** The order of the editor's rule lists: normalising twice, list by list. */
module PermOrder {
  import opened Prelude
  import opened PermEditor

  // ---- ordered maps: parts and merges, for any kind of value ----

  /** The parts of the values that are not blank, in order. */
  function PartOf<V(==)>(t: Ordered<V>, p: V -> V, blank: V): Ordered<V> {
    if t == [] then []
    else
      var n := |t| - 1;
      PartOf(t[..n], p, blank) + if p(t[n].1) == blank then [] else [(t[n].0, p(t[n].1))]
  }

  /** Every entry of `y` added to `x`, in order: into the entry of its key, or as a new one. */
  function MergeWith<V>(x: Ordered<V>, y: Ordered<V>, f: (V, V) -> V, blank: V): Ordered<V> {
    if y == [] then x
    else
      var n := |y| - 1;
      var before := MergeWith(x, y[..n], f, blank);
      Put(before, y[n].0, f(Or(Find(before, y[n].0), blank), y[n].1))
  }

  function Update<V>(v: V, y: Option<V>, f: (V, V) -> V): V {
    if y.Some? then f(v, y.value) else v
  }

  /** The entries of `x`, those that `y` has too merged with it. */
  function Updated<V>(x: Ordered<V>, y: Ordered<V>, f: (V, V) -> V): Ordered<V> {
    if x == [] then []
    else
      var n := |x| - 1;
      Updated(x[..n], y, f) + [(x[n].0, Update(x[n].1, Find(y, x[n].0), f))]
  }

  /** The entries of `y` that `x` does not have. */
  function Unseen<V>(x: Ordered<V>, y: Ordered<V>, f: (V, V) -> V, blank: V): Ordered<V> {
    if y == [] then []
    else
      var n := |y| - 1;
      Unseen(x, y[..n], f, blank) + if Find(x, y[n].0).Some? then [] else [(y[n].0, f(blank, y[n].1))]
  }

  lemma {:induction false} FindConcat<V>(a: Ordered<V>, b: Ordered<V>, k: string)
    ensures Find(a + b, k) == if Find(a, k).Some? then Find(a, k) else Find(b, k)
  {
    if a == [] {
      assert a + b == b;
    } else {
      assert (a + b)[0] == a[0] && (a + b)[1..] == a[1..] + b;
      FindConcat(a[1..], b, k);
    }
  }

  lemma FindLast<V>(m: Ordered<V>, k: string)
    requires m != []
    ensures var n := |m| - 1;
            Find(m, k) == if Find(m[..n], k).Some? then Find(m[..n], k) else if m[n].0 == k then Some(m[n].1) else None
  {
    var n := |m| - 1;
    assert m == m[..n] + [m[n]];
    FindConcat(m[..n], [m[n]], k);
  }

  lemma {:induction false} PutConcat<V>(a: Ordered<V>, b: Ordered<V>, k: string, v: V)
    ensures Put(a + b, k, v) == if Find(a, k).Some? then Put(a, k, v) + b else a + Put(b, k, v)
  {
    if a == [] {
      assert a + b == b;
    } else {
      assert (a + b)[0] == a[0] && (a + b)[1..] == a[1..] + b;
      if a[0].0 != k {
        PutConcat(a[1..], b, k, v);
        var p := Put(a[1..], k, v);
        assert [a[0]] + (p + b) == ([a[0]] + p) + b;
        assert [a[0]] + (a[1..] + Put(b, k, v)) == a + Put(b, k, v);
      } else {
        assert [(k, v)] + (a[1..] + b) == ([(k, v)] + a[1..]) + b;
      }
    }
  }

  lemma {:induction false} PutAbsent<V>(m: Ordered<V>, k: string, v: V)
    requires Find(m, k).None?
    ensures Put(m, k, v) == m + [(k, v)]
  {
    if m != [] {
      PutAbsent(m[1..], k, v);
    }
  }

  lemma {:induction false} PutPut<V>(m: Ordered<V>, k: string, v: V, w: V)
    ensures Put(Put(m, k, v), k, w) == Put(m, k, w)
  {
    if m != [] && m[0].0 != k {
      PutPut(m[1..], k, v, w);
    }
  }

  lemma DistinctInit<V>(m: Ordered<V>)
    requires DistinctKeys(m) && m != []
    ensures DistinctKeys(m[..|m| - 1]) && Find(m[..|m| - 1], m[|m| - 1].0).None?
  {
    var n := |m| - 1;
    FindKey(m[..n], m[n].0);
  }

  lemma {:induction false} UpdatedFind<V>(x: Ordered<V>, y: Ordered<V>, f: (V, V) -> V, k: string)
    ensures Find(Updated(x, y, f), k) ==
            if Find(x, k).Some? then Some(Update(Find(x, k).value, Find(y, k), f)) else None
  {
    if x != [] {
      var n := |x| - 1;
      UpdatedFind(x[..n], y, f, k);
      FindLast(x, k);
      FindConcat(Updated(x[..n], y, f), [(x[n].0, Update(x[n].1, Find(y, x[n].0), f))], k);
    }
  }

  /** One more entry of `y` changes the entry of its key only. */
  lemma {:induction false} UpdatedPut<V>(x: Ordered<V>, y: Ordered<V>, f: (V, V) -> V, k: string, v: V)
    requires DistinctKeys(x) && Find(y, k).None?
    ensures Updated(x, y + [(k, v)], f) ==
            if Find(x, k).Some? then Put(Updated(x, y, f), k, f(Find(x, k).value, v)) else Updated(x, y, f)
  {
    if x != [] {
      var n := |x| - 1;
      DistinctInit(x);
      UpdatedPut(x[..n], y, f, k, v);
      FindLast(x, k);
      FindConcat(y, [(k, v)], x[n].0);
      UpdatedFind(x[..n], y, f, k);
      var last := [(x[n].0, Update(x[n].1, Find(y, x[n].0), f))];
      PutConcat(Updated(x[..n], y, f), last, k, f(Or(Find(x, k), v), v));
    }
  }

  /** A merge keeps the order of the first map and appends what is new. */
  lemma {:induction false} MergeShape<V>(x: Ordered<V>, y: Ordered<V>, f: (V, V) -> V, blank: V)
    requires DistinctKeys(x) && DistinctKeys(y)
    ensures MergeWith(x, y, f, blank) == Updated(x, y, f) + Unseen(x, y, f, blank)
  {
    if y == [] {
      UpdatedNothing(x, f);
    } else {
      var n := |y| - 1;
      var (k, v) := y[n];
      DistinctInit(y);
      MergeShape(x, y[..n], f, blank);
      var a, b := Updated(x, y[..n], f), Unseen(x, y[..n], f, blank);
      UpdatedFind(x, y[..n], f, k);
      UnseenFind(x, y[..n], f, blank, k);
      FindConcat(a, b, k);
      UpdatedPut(x, y[..n], f, k, v);
      assert y == y[..n] + [(k, v)];
      PutConcat(a, b, k, f(Or(Find(x, k), blank), v));
      UnseenSnoc(x, y[..n], f, blank, k, v);
      if Find(x, k).None? {
        PutAbsent(b, k, f(blank, v));
        Append(a, b, (k, f(blank, v)));
      }
    }
  }

  lemma Append<T>(a: seq<T>, b: seq<T>, x: T)
    ensures a + (b + [x]) == a + b + [x]
  {
  }

  lemma {:induction false} UpdatedNothing<V>(x: Ordered<V>, f: (V, V) -> V)
    ensures Updated(x, [], f) == x
  {
    if x != [] {
      UpdatedNothing(x[..|x| - 1], f);
      assert x == x[..|x| - 1] + [x[|x| - 1]];
    }
  }

  lemma {:induction false} UnseenFind<V>(x: Ordered<V>, y: Ordered<V>, f: (V, V) -> V, blank: V, k: string)
    requires Find(y, k).None?
    ensures Find(Unseen(x, y, f, blank), k).None?
  {
    if y != [] {
      var n := |y| - 1;
      FindLast(y, k);
      UnseenFind(x, y[..n], f, blank, k);
      assert Unseen(x, y[..n], f, blank) + [] == Unseen(x, y[..n], f, blank);
      FindConcat(Unseen(x, y[..n], f, blank), [(y[n].0, f(blank, y[n].1))], k);
    }
  }

  lemma {:induction false} PartFind<V>(t: Ordered<V>, p: V -> V, blank: V, k: string)
    requires DistinctKeys(t)
    ensures var v := Find(t, k);
            Find(PartOf(t, p, blank), k) == if v.Some? && p(v.value) != blank then Some(p(v.value)) else None
  {
    if t != [] {
      var n := |t| - 1;
      DistinctInit(t);
      PartFind(t[..n], p, blank, k);
      FindLast(t, k);
      assert PartOf(t[..n], p, blank) + [] == PartOf(t[..n], p, blank);
      FindConcat(PartOf(t[..n], p, blank), [(t[n].0, p(t[n].1))], k);
    }
  }

  lemma {:induction false} PartDistinct<V>(t: Ordered<V>, p: V -> V, blank: V)
    requires DistinctKeys(t)
    ensures DistinctKeys(PartOf(t, p, blank))
    ensures forall e :: e in PartOf(t, p, blank) ==> exists i :: 0 <= i < |t| && t[i].0 == e.0
  {
    if t != [] {
      PartDistinct(t[..|t| - 1], p, blank);
    }
  }

  lemma {:induction false} PartConcat<V>(a: Ordered<V>, b: Ordered<V>, p: V -> V, blank: V)
    ensures PartOf(a + b, p, blank) == PartOf(a, p, blank) + PartOf(b, p, blank)
  {
    if b == [] {
      assert a + b == a;
    } else {
      var n := |b| - 1;
      assert (a + b)[..|a| + n] == a + b[..n];
      PartConcat(a, b[..n], p, blank);
    }
  }

  // ---- allow and deny parts of one map ----

  /** How the parts of a value and their merge fit together. */
  ghost predicate Fits<V>(v: V, pa: V -> V, pd: V -> V, f: (V, V) -> V, blank: V) {
    pd(pa(v)) == blank && pa(pd(v)) == blank && pd(pd(v)) == pd(v) && pa(pa(v)) == pa(v) &&
    f(blank, pd(v)) == pd(v) && f(blank, pa(v)) == pa(v) &&
    pa(f(pa(v), pd(v))) == pa(v) && (pd(f(pa(v), pd(v))) == blank <==> pd(v) == blank)
  }

  ghost predicate AllFit<V>(t: Ordered<V>, pa: V -> V, pd: V -> V, f: (V, V) -> V, blank: V) {
    forall i :: 0 <= i < |t| ==> Fits(t[i].1, pa, pd, f, blank)
  }

  /** The deny parts of what has an allow part too (`both`), or of what has none, after the merge. */
  function Picked<V(==)>(t: Ordered<V>, pa: V -> V, pd: V -> V, f: (V, V) -> V, blank: V, both: bool): Ordered<V> {
    if t == [] then []
    else
      var n := |t| - 1;
      var v := t[n].1;
      Picked(t[..n], pa, pd, f, blank, both) +
      if pd(v) != blank && (pa(v) != blank <==> both) then [(t[n].0, pd(f(pa(v), pd(v))))] else []
  }

  lemma PartNext<V>(t: Ordered<V>, n: nat, p: V -> V, blank: V)
    requires n < |t|
    ensures var before := PartOf(t[..n], p, blank);
            PartOf(t[..n + 1], p, blank) == if p(t[n].1) == blank then before else before + [(t[n].0, p(t[n].1))]
  {
    assert t[..n + 1] == t[..n] + [(t[n].0, t[n].1)];
    PartLast(t[..n], t[n].0, t[n].1, p, blank);
  }

  lemma UpdatedSnoc<V>(x: Ordered<V>, y: Ordered<V>, f: (V, V) -> V, k: string, v: V)
    ensures Updated(x + [(k, v)], y, f) == Updated(x, y, f) + [(k, Update(v, Find(y, k), f))]
  {
    assert (x + [(k, v)])[..|x|] == x;
  }

  lemma UnseenSnoc<V>(x: Ordered<V>, y: Ordered<V>, f: (V, V) -> V, blank: V, k: string, v: V)
    ensures var u := Unseen(x, y, f, blank);
            Unseen(x, y + [(k, v)], f, blank) == if Find(x, k).Some? then u else u + [(k, f(blank, v))]
  {
    assert (y + [(k, v)])[..|y|] == y;
  }

  /** What an entry becomes in the merge. */
  function Merged<V(==)>(v: V, pa: V -> V, pd: V -> V, f: (V, V) -> V, blank: V): V {
    if pd(v) == blank then pa(v) else f(pa(v), pd(v))
  }

  /** One more entry of the map adds at most one entry to the merged allow parts. */
  lemma UpdatedLast<V>(t: Ordered<V>, n: nat, pa: V -> V, pd: V -> V, f: (V, V) -> V, blank: V)
    requires n < |t| && DistinctKeys(t)
    ensures var (k, v) := t[n];
            var y := PartOf(t, pd, blank);
            var u := Updated(PartOf(t[..n], pa, blank), y, f);
            Updated(PartOf(t[..n + 1], pa, blank), y, f) ==
            if pa(v) == blank then u else u + [(k, Merged(v, pa, pd, f, blank))]
  {
    PartNext(t, n, pa, blank);
    PartFind(t, pd, blank, t[n].0);
    FindAt(t, n);
    UpdatedSnoc(PartOf(t[..n], pa, blank), PartOf(t, pd, blank), f, t[n].0, pa(t[n].1));
  }

  lemma {:induction false} UpdatedDeny<V>(t: Ordered<V>, i: nat, pa: V -> V, pd: V -> V, f: (V, V) -> V, blank: V)
    requires i <= |t| && DistinctKeys(t) && AllFit(t, pa, pd, f, blank)
    ensures PartOf(Updated(PartOf(t[..i], pa, blank), PartOf(t, pd, blank), f), pd, blank) ==
            Picked(t[..i], pa, pd, f, blank, true)
  {
    if i > 0 {
      var n := i - 1;
      var v := t[n].1;
      assert t[..i][..n] == t[..n] && t[..i][n] == t[n];
      UpdatedDeny(t, n, pa, pd, f, blank);
      UpdatedLast(t, n, pa, pd, f, blank);
      assert Fits(v, pa, pd, f, blank);
      PartLast(Updated(PartOf(t[..n], pa, blank), PartOf(t, pd, blank), f), t[n].0, Merged(v, pa, pd, f, blank), pd, blank);
      LastParts(t[..i], pa, pd, f, blank);
    }
  }

  lemma {:induction false} UpdatedAllow<V>(t: Ordered<V>, i: nat, pa: V -> V, pd: V -> V, f: (V, V) -> V, blank: V)
    requires i <= |t| && DistinctKeys(t) && AllFit(t, pa, pd, f, blank)
    ensures PartOf(Updated(PartOf(t[..i], pa, blank), PartOf(t, pd, blank), f), pa, blank) == PartOf(t[..i], pa, blank)
  {
    if i > 0 {
      var n := i - 1;
      var v := t[n].1;
      UpdatedAllow(t, n, pa, pd, f, blank);
      UpdatedLast(t, n, pa, pd, f, blank);
      assert Fits(v, pa, pd, f, blank);
      PartLast(Updated(PartOf(t[..n], pa, blank), PartOf(t, pd, blank), f), t[n].0, Merged(v, pa, pd, f, blank), pa, blank);
      PartNext(t, n, pa, blank);
    }
  }

  lemma PartLast<V>(t: Ordered<V>, k: string, v: V, p: V -> V, blank: V)
    ensures PartOf(t + [(k, v)], p, blank) == if p(v) == blank then PartOf(t, p, blank) else PartOf(t, p, blank) + [(k, p(v))]
  {
    assert (t + [(k, v)])[..|t|] == t;
  }

  lemma UnseenLast<V>(t: Ordered<V>, n: nat, pa: V -> V, pd: V -> V, f: (V, V) -> V, blank: V)
    requires n < |t| && DistinctKeys(t) && AllFit(t, pa, pd, f, blank)
    ensures var (k, v) := t[n];
            var x := PartOf(t, pa, blank);
            var (u, next) := (Unseen(x, PartOf(t[..n], pd, blank), f, blank), Unseen(x, PartOf(t[..n + 1], pd, blank), f, blank));
            next == if DenyOnly(v, pa, pd, blank) then u + [(k, pd(v))] else u
  {
    PartNext(t, n, pd, blank);
    PartFind(t, pa, blank, t[n].0);
    FindAt(t, n);
    assert Fits(t[n].1, pa, pd, f, blank);
    UnseenSnoc(PartOf(t, pa, blank), PartOf(t[..n], pd, blank), f, blank, t[n].0, pd(t[n].1));
  }

  lemma {:induction false} UnseenParts<V>(t: Ordered<V>, i: nat, pa: V -> V, pd: V -> V, f: (V, V) -> V, blank: V)
    requires i <= |t| && DistinctKeys(t) && AllFit(t, pa, pd, f, blank)
    ensures var u := Unseen(PartOf(t, pa, blank), PartOf(t[..i], pd, blank), f, blank);
            PartOf(u, pd, blank) == Picked(t[..i], pa, pd, f, blank, false) && PartOf(u, pa, blank) == []
  {
    if i > 0 {
      var n := i - 1;
      var (k, v) := t[n];
      assert t[..i][..n] == t[..n] && t[..i][n] == t[n];
      UnseenParts(t, n, pa, pd, f, blank);
      UnseenLast(t, n, pa, pd, f, blank);
      assert Fits(v, pa, pd, f, blank);
      var u := Unseen(PartOf(t, pa, blank), PartOf(t[..n], pd, blank), f, blank);
      PartLast(u, k, pd(v), pd, blank);
      PartLast(u, k, pd(v), pa, blank);
      LastParts(t[..i], pa, pd, f, blank);
    }
  }

  /** Merging the deny parts into the allow parts keeps the allow parts as they are, and puts the deny parts
      of what is also allowed first. */
  lemma MergeParts<V>(t: Ordered<V>, pa: V -> V, pd: V -> V, f: (V, V) -> V, blank: V)
    requires DistinctKeys(t) && AllFit(t, pa, pd, f, blank)
    ensures var m := MergeWith(PartOf(t, pa, blank), PartOf(t, pd, blank), f, blank);
            PartOf(m, pa, blank) == PartOf(t, pa, blank) &&
            PartOf(m, pd, blank) ==
            Picked(t, pa, pd, f, blank, true) + Picked(t, pa, pd, f, blank, false)
  {
    var x, y := PartOf(t, pa, blank), PartOf(t, pd, blank);
    PartDistinct(t, pa, blank);
    PartDistinct(t, pd, blank);
    MergeShape(x, y, f, blank);
    assert t[..|t|] == t;
    UpdatedDeny(t, |t|, pa, pd, f, blank);
    UpdatedAllow(t, |t|, pa, pd, f, blank);
    UnseenParts(t, |t|, pa, pd, f, blank);
    PartConcat(Updated(x, y, f), Unseen(x, y, f, blank), pa, blank);
    PartConcat(Updated(x, y, f), Unseen(x, y, f, blank), pd, blank);
    assert PartOf(t, pa, blank) + [] == PartOf(t, pa, blank);
  }

  predicate DenyOnly<V(==)>(v: V, pa: V -> V, pd: V -> V, blank: V) {
    pd(v) != blank && pa(v) == blank
  }

  predicate Mixed<V(==)>(v: V, pa: V -> V, pd: V -> V, blank: V) {
    pd(v) != blank && pa(v) != blank
  }

  /** Nothing that is only denied comes before something that is also allowed. */
  predicate InOrder<V(==)>(t: Ordered<V>, pa: V -> V, pd: V -> V, blank: V) {
    forall i, j :: 0 <= i < j < |t| && DenyOnly(t[i].1, pa, pd, blank) ==> !Mixed(t[j].1, pa, pd, blank)
  }

  /** The merge leaves the deny part of every value as it is. */
  predicate KeepsDeny<V(==)>(t: Ordered<V>, pa: V -> V, pd: V -> V, f: (V, V) -> V, blank: V) {
    forall i :: 0 <= i < |t| && pd(t[i].1) != blank ==> pd(f(pa(t[i].1), pd(t[i].1))) == pd(t[i].1)
  }

  lemma {:induction false} PickedKeys<V>(t: Ordered<V>, pa: V -> V, pd: V -> V, f: (V, V) -> V, blank: V, both: bool)
    ensures forall e :: e in Picked(t, pa, pd, f, blank, both) ==> exists i :: 0 <= i < |t| && t[i].0 == e.0
  {
    if t != [] {
      PickedKeys(t[..|t| - 1], pa, pd, f, blank, both);
    }
  }

  lemma {:induction false} PickedNone<V>(t: Ordered<V>, pa: V -> V, pd: V -> V, f: (V, V) -> V, blank: V)
    ensures Picked(t, pa, pd, f, blank, false) == [] <==> forall i :: 0 <= i < |t| ==> !DenyOnly(t[i].1, pa, pd, blank)
  {
    if t != [] {
      PickedNone(t[..|t| - 1], pa, pd, f, blank);
    }
  }

  lemma SnocEqual<T>(a: seq<T>, x: T, b: seq<T>, y: T)
    ensures a + [x] == b + [y] <==> a == b && x == y
  {
    if a + [x] == b + [y] {
      assert (a + [x])[..|a|] == a && (b + [y])[..|b|] == b;
      assert (a + [x])[|a|] == x && (b + [y])[|b|] == y;
    }
  }

  lemma InOrderLast<V>(t: Ordered<V>, pa: V -> V, pd: V -> V, blank: V)
    requires t != []
    ensures var n := |t| - 1;
            InOrder(t, pa, pd, blank) <==>
            (InOrder(t[..n], pa, pd, blank) &&
             (Mixed(t[n].1, pa, pd, blank) ==> forall i :: 0 <= i < n ==> !DenyOnly(t[i].1, pa, pd, blank)))
  {
  }

  lemma KeepsDenyLast<V>(t: Ordered<V>, pa: V -> V, pd: V -> V, f: (V, V) -> V, blank: V)
    requires t != []
    ensures var (n, v) := (|t| - 1, t[|t| - 1].1);
            KeepsDeny(t, pa, pd, f, blank) <==>
            KeepsDeny(t[..n], pa, pd, f, blank) && (pd(v) != blank ==> pd(f(pa(v), pd(v))) == pd(v))
  {
  }

  /** One more deny-only entry, at the end on both sides. */
  lemma OneMoreOnly<T>(both: seq<T>, only: seq<T>, part: seq<T>, x: T)
    ensures both + (only + [x]) == part + [x] <==> both + only == part
  {
    assert both + (only + [x]) == (both + only) + [x];
    SnocEqual(both + only, x, part, x);
  }

  /** One more entry with both parts: it ends the list only if nothing deny-only is there. */
  lemma OneMoreBoth<T>(both: seq<T>, only: seq<T>, part: seq<T>, x': T, x: T)
    requires x !in only
    ensures both + [x'] + only == part + [x] <==> both + only == part && only == [] && x' == x
  {
    if only == [] {
      assert both + [x'] + only == both + [x'] && both + only == both;
      SnocEqual(both, x', part, x);
    } else {
      var last := only[|only| - 1];
      assert last in only;
      assert both + [x'] + only == (both + [x'] + only[..|only| - 1]) + [last];
      SnocEqual(both + [x'] + only[..|only| - 1], last, part, x);
    }
  }

  /** The merge leaves the order of the deny parts alone if and only if they were in that order. */
  lemma {:induction false} OrderIff<V>(t: Ordered<V>, pa: V -> V, pd: V -> V, f: (V, V) -> V, blank: V)
    requires DistinctKeys(t) && AllFit(t, pa, pd, f, blank)
    ensures Settled(t, pa, pd, f, blank) <==> InOrder(t, pa, pd, blank) && KeepsDeny(t, pa, pd, f, blank)
  {
    if t != [] {
      var n := |t| - 1;
      var (k, v) := t[n];
      OrderIff(t[..n], pa, pd, f, blank);
      InOrderLast(t, pa, pd, blank);
      KeepsDenyLast(t, pa, pd, f, blank);
      assert Fits(v, pa, pd, f, blank);
      LastParts(t, pa, pd, f, blank);
      if DenyOnly(v, pa, pd, blank) {
        OnlyStep(t, pa, pd, f, blank);
      } else if Mixed(v, pa, pd, blank) {
        BothStep(t, pa, pd, f, blank);
        PickedNone(t[..n], pa, pd, f, blank);
        assert forall i :: 0 <= i < n ==> t[..n][i] == t[i];
      }
    }
  }

  /** The deny parts as the merge orders them are in their own order. */
  predicate Settled<V(==)>(t: Ordered<V>, pa: V -> V, pd: V -> V, f: (V, V) -> V, blank: V) {
    Picked(t, pa, pd, f, blank, true) + Picked(t, pa, pd, f, blank, false) == PartOf(t, pd, blank)
  }

  lemma OnlyStep<V>(t: Ordered<V>, pa: V -> V, pd: V -> V, f: (V, V) -> V, blank: V)
    requires t != [] && DenyOnly(t[|t| - 1].1, pa, pd, blank) && Fits(t[|t| - 1].1, pa, pd, f, blank)
    ensures Settled(t, pa, pd, f, blank) <==> Settled(t[..|t| - 1], pa, pd, f, blank)
  {
    var n := |t| - 1;
    LastParts(t, pa, pd, f, blank);
    OneMoreOnly(Picked(t[..n], pa, pd, f, blank, true), Picked(t[..n], pa, pd, f, blank, false), PartOf(t[..n], pd, blank),
                (t[n].0, pd(t[n].1)));
  }

  lemma BothStep<V>(t: Ordered<V>, pa: V -> V, pd: V -> V, f: (V, V) -> V, blank: V)
    requires DistinctKeys(t) && t != [] && Mixed(t[|t| - 1].1, pa, pd, blank)
    ensures var (n, v) := (|t| - 1, t[|t| - 1].1);
            Settled(t, pa, pd, f, blank) <==>
            Settled(t[..n], pa, pd, f, blank) && Picked(t[..n], pa, pd, f, blank, false) == [] &&
            pd(f(pa(v), pd(v))) == pd(v)
  {
    var n := |t| - 1;
    var (k, v) := t[n];
    LastParts(t, pa, pd, f, blank);
    LastKeyNew(t, pa, pd, f, blank, pd(v));
    OneMoreBoth(Picked(t[..n], pa, pd, f, blank, true), Picked(t[..n], pa, pd, f, blank, false), PartOf(t[..n], pd, blank),
                (k, pd(f(pa(v), pd(v)))), (k, pd(v)));
  }

  lemma LastParts<V>(t: Ordered<V>, pa: V -> V, pd: V -> V, f: (V, V) -> V, blank: V)
    requires t != []
    ensures var (n, k, v) := (|t| - 1, t[|t| - 1].0, t[|t| - 1].1);
            var (both, only, part) := (Picked(t[..n], pa, pd, f, blank, true), Picked(t[..n], pa, pd, f, blank, false),
                                       PartOf(t[..n], pd, blank));
            Picked(t, pa, pd, f, blank, true) == (if Mixed(v, pa, pd, blank) then both + [(k, pd(f(pa(v), pd(v))))] else both) &&
            Picked(t, pa, pd, f, blank, false) ==
              (if DenyOnly(v, pa, pd, blank) then only + [(k, pd(f(pa(v), pd(v))))] else only) &&
            PartOf(t, pd, blank) == if pd(v) != blank then part + [(k, pd(v))] else part
  {
  }

  lemma LastKeyNew<V>(t: Ordered<V>, pa: V -> V, pd: V -> V, f: (V, V) -> V, blank: V, v: V)
    requires DistinctKeys(t) && t != []
    ensures (t[|t| - 1].0, v) !in Picked(t[..|t| - 1], pa, pd, f, blank, false)
  {
    PickedKeys(t[..|t| - 1], pa, pd, f, blank, false);
  }

  lemma {:induction false} PartCount<V>(t: Ordered<V>, p: V -> V, blank: V)
    ensures |PartOf(t, p, blank)| <= |t|
    ensures |PartOf(t, p, blank)| == |t| ==> forall i :: 0 <= i < |t| ==> p(t[i].1) != blank
    ensures |PartOf(t, p, blank)| == 0 ==> forall i :: 0 <= i < |t| ==> p(t[i].1) == blank
  {
    if t != [] {
      PartCount(t[..|t| - 1], p, blank);
    }
  }

  lemma {:induction false} UpdatedLength<V>(x: Ordered<V>, y: Ordered<V>, f: (V, V) -> V)
    ensures |Updated(x, y, f)| == |x|
  {
    if x != [] {
      UpdatedLength(x[..|x| - 1], y, f);
    }
  }

  /** A merge of parts is in order. */
  lemma MergeInOrder<V>(t: Ordered<V>, pa: V -> V, pd: V -> V, f: (V, V) -> V, blank: V)
    requires DistinctKeys(t) && AllFit(t, pa, pd, f, blank)
    ensures InOrder(MergeWith(PartOf(t, pa, blank), PartOf(t, pd, blank), f, blank), pa, pd, blank)
  {
    var x, y := PartOf(t, pa, blank), PartOf(t, pd, blank);
    PartDistinct(t, pa, blank);
    PartDistinct(t, pd, blank);
    MergeShape(x, y, f, blank);
    assert t[..|t|] == t;
    UpdatedDeny(t, |t|, pa, pd, f, blank);
    UpdatedAllow(t, |t|, pa, pd, f, blank);
    UnseenParts(t, |t|, pa, pd, f, blank);
    UpdatedLength(x, y, f);
    PartCount(Updated(x, y, f), pa, blank);
    PartCount(Unseen(x, y, f, blank), pa, blank);
  }

  /** Parts of parts: the same part again, or nothing. */
  lemma {:induction false} PartPart<V>(t: Ordered<V>, p: V -> V, q: V -> V, blank: V, same: bool)
    requires forall i :: 0 <= i < |t| ==> q(p(t[i].1)) == if same then p(t[i].1) else blank
    ensures PartOf(PartOf(t, p, blank), q, blank) == if same then PartOf(t, p, blank) else []
  {
    if t != [] {
      var n := |t| - 1;
      PartPart(t[..n], p, q, blank, same);
      var before := PartOf(t[..n], p, blank);
      PartLast(before, t[n].0, p(t[n].1), q, blank);
      assert before + [] == before;
    }
  }

  /** The merge drops no deny part. */
  lemma {:induction false} PickedCount<V>(t: Ordered<V>, pa: V -> V, pd: V -> V, f: (V, V) -> V, blank: V)
    ensures |Picked(t, pa, pd, f, blank, true)| + |Picked(t, pa, pd, f, blank, false)| == |PartOf(t, pd, blank)|
  {
    if t != [] {
      PickedCount(t[..|t| - 1], pa, pd, f, blank);
    }
  }

  /** Merging into nothing copies. */
  lemma {:induction false} MergeInto<V>(y: Ordered<V>, f: (V, V) -> V, blank: V)
    requires DistinctKeys(y) && forall e :: e in y ==> f(blank, e.1) == e.1
    ensures MergeWith([], y, f, blank) == y
  {
    if y != [] {
      var n := |y| - 1;
      DistinctInit(y);
      MergeInto(y[..n], f, blank);
      PutAbsent(y[..n], y[n].0, y[n].1);
      assert y == y[..n] + [y[n]];
    }
  }

  lemma {:induction false} UpdatedValues<V>(t: Ordered<V>, i: nat, pa: V -> V, pd: V -> V, f: (V, V) -> V, blank: V)
    requires i <= |t| && DistinctKeys(t)
    ensures forall e :: e in Updated(PartOf(t[..i], pa, blank), PartOf(t, pd, blank), f) ==>
              exists m :: 0 <= m < i && e.1 == Merged(t[m].1, pa, pd, f, blank)
  {
    if i > 0 {
      UpdatedValues(t, i - 1, pa, pd, f, blank);
      UpdatedLast(t, i - 1, pa, pd, f, blank);
    }
  }

  lemma {:induction false} UnseenValues<V>(t: Ordered<V>, i: nat, pa: V -> V, pd: V -> V, f: (V, V) -> V, blank: V)
    requires i <= |t| && DistinctKeys(t) && AllFit(t, pa, pd, f, blank)
    ensures forall e :: e in Unseen(PartOf(t, pa, blank), PartOf(t[..i], pd, blank), f, blank) ==>
              exists m :: 0 <= m < i && e.1 == pd(t[m].1)
  {
    if i > 0 {
      UnseenValues(t, i - 1, pa, pd, f, blank);
      UnseenLast(t, i - 1, pa, pd, f, blank);
    }
  }

  /** Where the values of a merge come from. */
  lemma MergeValues<V>(t: Ordered<V>, pa: V -> V, pd: V -> V, f: (V, V) -> V, blank: V, e: (string, V))
    requires DistinctKeys(t) && AllFit(t, pa, pd, f, blank)
    requires e in MergeWith(PartOf(t, pa, blank), PartOf(t, pd, blank), f, blank)
    ensures exists m :: 0 <= m < |t| && (e.1 == Merged(t[m].1, pa, pd, f, blank) || e.1 == pd(t[m].1))
  {
    PartDistinct(t, pa, blank);
    PartDistinct(t, pd, blank);
    MergeShape(PartOf(t, pa, blank), PartOf(t, pd, blank), f, blank);
    assert t[..|t|] == t;
    if e in Updated(PartOf(t, pa, blank), PartOf(t, pd, blank), f) {
      UpdatedValues(t, |t|, pa, pd, f, blank);
    } else {
      UnseenValues(t, |t|, pa, pd, f, blank);
    }
  }
}
