/** The median of a latency ring (src/metrics.rs). */
module Medians {
  import opened Reals

  predicate Ascending(s: seq<real>) {
    forall i, j :: 0 <= i < j < |s| ==> s[i] <= s[j]
  }

  /** The values in ascending order. */
  function Sort(s: seq<real>): seq<real> {
    if s == [] then [] else Placed(s[|s| - 1], Sort(s[..|s| - 1]))
  }

  function Placed(x: real, s: seq<real>): seq<real> {
    if s == [] || x <= s[0] then [x] + s else [s[0]] + Placed(x, s[1..])
  }

  function Mid(sorted: seq<real>): real {
    var n := |sorted|;
    if n == 0 then 0.0
    else if n % 2 == 1 then sorted[n / 2]
    else (sorted[n / 2 - 1] + sorted[n / 2]) / 2.0
  }

  function MedianOf(v: seq<real>): real {
    Mid(Sort(v))
  }

  lemma ConsAscending(x: real, s: seq<real>)
    requires Ascending(s) && (s != [] ==> x <= s[0])
    ensures Ascending([x] + s)
  {
  }

  lemma {:induction false} PlacedAscends(x: real, s: seq<real>)
    requires Ascending(s)
    ensures Ascending(Placed(x, s)) && Placed(x, s)[0] == if s == [] then x else MinReal(x, s[0])
  {
    if s == [] || x <= s[0] {
      ConsAscending(x, s);
    } else {
      PlacedAscends(x, s[1..]);
      ConsAscending(s[0], Placed(x, s[1..]));
    }
  }

  lemma {:induction false} PlacedPermutes(x: real, s: seq<real>)
    ensures multiset(Placed(x, s)) == multiset(s) + multiset{x} && |Placed(x, s)| == |s| + 1
  {
    if s != [] && x > s[0] {
      PlacedPermutes(x, s[1..]);
      assert s == [s[0]] + s[1..];
    }
  }

  lemma {:induction false} SortAscends(s: seq<real>)
    ensures Ascending(Sort(s))
  {
    if s != [] {
      SortAscends(s[..|s| - 1]);
      PlacedAscends(s[|s| - 1], Sort(s[..|s| - 1]));
    }
  }

  lemma {:induction false} SortPermutes(s: seq<real>)
    ensures multiset(Sort(s)) == multiset(s) && |Sort(s)| == |s|
  {
    if s != [] {
      var n := |s| - 1;
      SortPermutes(s[..n]);
      PlacedPermutes(s[n], Sort(s[..n]));
      assert s == s[..n] + [s[n]];
    }
  }

  /** `median`: sorts its buffer, then takes the middle or the mean of the two middle values. */
  method Median(v: seq<real>) returns (sorted: seq<real>, m: real)
    ensures sorted == Sort(v) && Ascending(sorted) && multiset(sorted) == multiset(v)
    ensures m == MedianOf(v)
  {
    SortAscends(v);
    SortPermutes(v);
    sorted := [];
    for i := 0 to |v|
      invariant sorted == Sort(v[..i])
    {
      assert v[..i + 1][..i] == v[..i];
      sorted := InsertInto(v[i], sorted);
    }
    assert v[..|v|] == v;
    var n := |sorted|;
    if n == 0 {
      m := 0.0;
    } else if n % 2 == 1 {
      m := sorted[n / 2];
    } else {
      m := (sorted[n / 2 - 1] + sorted[n / 2]) / 2.0;
    }
  }

  lemma PlacedPast(x: real, s: seq<real>, i: nat)
    requires i < |s| && s[i] < x
    ensures s[..i] + Placed(x, s[i..]) == s[..i + 1] + Placed(x, s[i + 1..])
  {
    assert s[i..][1..] == s[i + 1..];
    assert s[..i + 1] == s[..i] + [s[i]];
    assert s[..i] + ([s[i]] + Placed(x, s[i + 1..])) == (s[..i] + [s[i]]) + Placed(x, s[i + 1..]);
  }

  method InsertInto(x: real, s: seq<real>) returns (r: seq<real>)
    ensures r == Placed(x, s)
  {
    var i := 0;
    assert s[0..] == s;
    while i < |s| && s[i] < x
      invariant i <= |s| && Placed(x, s) == s[..i] + Placed(x, s[i..])
    {
      PlacedPast(x, s, i);
      i := i + 1;
    }
    r := s[..i] + [x] + s[i..];
  }

  lemma FirstIsLeast(s: seq<real>, x: real)
    requires Ascending(s) && x in multiset(s)
    ensures s != [] && s[0] <= x
  {
    var i :| 0 <= i < |s| && s[i] == x;
  }

  lemma SameHeads(s: seq<real>, t: seq<real>)
    requires Ascending(s) && Ascending(t) && multiset(s) == multiset(t) && s != []
    ensures t != [] && s[0] == t[0]
  {
    assert s[0] in multiset(s);
    FirstIsLeast(t, s[0]);
    assert t[0] in multiset(t);
    FirstIsLeast(s, t[0]);
  }

  lemma TailAscends(s: seq<real>)
    requires Ascending(s) && s != []
    ensures Ascending(s[1..])
  {
  }

  /** A list has one ascending order. */
  lemma {:induction false} OneOrder(s: seq<real>, t: seq<real>)
    requires Ascending(s) && Ascending(t) && multiset(s) == multiset(t)
    ensures s == t
  {
    if s == [] {
      NoneInBag(t);
    } else {
      SameHeads(s, t);
      TailAscends(s);
      TailAscends(t);
      TailBag(s);
      TailBag(t);
      OneOrder(s[1..], t[1..]);
      HeadAndTail(s, t);
    }
  }

  lemma NoneInBag(t: seq<real>)
    requires multiset(t) == multiset([])
    ensures t == []
  {
    assert |multiset(t)| == |t|;
  }

  lemma HeadAndTail(s: seq<real>, t: seq<real>)
    requires s != [] && t != [] && s[0] == t[0] && s[1..] == t[1..]
    ensures s == t
  {
    assert s == [s[0]] + s[1..] && t == [t[0]] + t[1..];
  }

  lemma TailBag(s: seq<real>)
    requires s != []
    ensures multiset(s[1..]) == multiset(s) - multiset{s[0]}
  {
    assert s == [s[0]] + s[1..];
    assert multiset(s) == multiset{s[0]} + multiset(s[1..]);
  }

  /** `s` is `v` in ascending order, and `m` its middle: half way between the two middle values of an even number, and
      0 of nothing. */
  predicate IsMiddle(v: seq<real>, s: seq<real>, m: real) {
    Ascending(s) && multiset(s) == multiset(v) && |s| == |v| &&
    if v == [] then m == 0.0 else m == (s[(|v| - 1) / 2] + s[|v| / 2]) / 2.0
  }

  lemma MedianIsMiddle(v: seq<real>, m: real)
    ensures m == MedianOf(v) <==> exists s :: IsMiddle(v, s, m)
  {
    SortAscends(v);
    SortPermutes(v);
    MiddleOfSort(v, m);
    if s :| IsMiddle(v, s, m) {
      OneOrder(s, Sort(v));
    }
  }

  lemma MiddleOfSort(v: seq<real>, m: real)
    requires Ascending(Sort(v)) && multiset(Sort(v)) == multiset(v) && |Sort(v)| == |v|
    ensures IsMiddle(v, Sort(v), m) <==> m == MedianOf(v)
  {
    var n := |v|;
    assert n % 2 == 1 ==> (n - 1) / 2 == n / 2;
    assert n > 0 && n % 2 == 0 ==> (n - 1) / 2 == n / 2 - 1;
  }

  predicate Below(s: seq<real>, t: seq<real>) {
    |s| == |t| && forall i :: 0 <= i < |s| ==> s[i] <= t[i]
  }

  /** Placing puts the smaller of value and head in front, and places the larger in the rest. */
  lemma PlacedSplit(x: real, s: seq<real>)
    requires Ascending(s) && s != []
    ensures Placed(x, s) == [MinReal(x, s[0])] + Placed(MaxReal(x, s[0]), s[1..])
  {
    if x <= s[0] {
      assert Placed(s[0], s[1..]) == [s[0]] + s[1..];
      assert s == [s[0]] + s[1..];
    }
  }

  lemma {:induction false} PlacedMonotone(x: real, y: real, s: seq<real>, t: seq<real>)
    requires x <= y && Below(s, t) && Ascending(s) && Ascending(t)
    ensures Below(Placed(x, s), Placed(y, t))
    decreases |s|
  {
    if s != [] {
      PlacedSplit(x, s);
      PlacedSplit(y, t);
      PlacedMonotone(MaxReal(x, s[0]), MaxReal(y, t[0]), s[1..], t[1..]);
    }
  }

  /** Raising latencies never lowers the median. */
  lemma {:induction false} SortMonotone(v: seq<real>, w: seq<real>)
    requires Below(v, w)
    ensures Below(Sort(v), Sort(w))
  {
    if v != [] {
      var n := |v| - 1;
      SortMonotone(v[..n], w[..n]);
      SortAscends(v[..n]);
      SortAscends(w[..n]);
      PlacedMonotone(v[n], w[n], Sort(v[..n]), Sort(w[..n]));
    }
  }

  lemma MedianMonotone(v: seq<real>, w: seq<real>)
    requires Below(v, w)
    ensures MedianOf(v) <= MedianOf(w)
  {
    SortMonotone(v, w);
  }
}
