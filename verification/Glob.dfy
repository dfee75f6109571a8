/** The `*` / `?` pattern matcher of src/perms.rs: a loop that backtracks to the last star only, against
    the usual recursive meaning. */
module Glob {
  /** The meaning of a pattern: `*` any characters, `?` one, anything else itself. */
  predicate Means(p: string, v: string)
    decreases |p| + |v|
  {
    if p == [] then v == []
    else if p[0] == '*' then Means(p[1..], v) || (v != [] && Means(p, v[1..]))
    else v != [] && Fits(p[0], v[0]) && Means(p[1..], v[1..])
  }

  predicate Fits(c: char, x: char) {
    c == '?' || c == x
  }

  predicate AllStars(p: string) {
    forall i :: 0 <= i < |p| ==> p[i] == '*'
  }

  /** The loop from a given state on; `star` is -1 while no star has been passed. */
  predicate Scan(pat: string, val: string, pi: nat, vi: nat, star: int, mark: nat)
    requires pi <= |pat| && vi <= |val| && mark <= vi && -1 <= star < pi
    decreases |pat| - star, |val| - mark, |val| - vi
  {
    if vi < |val| then
      if pi < |pat| && Fits(pat[pi], val[vi]) then Scan(pat, val, pi + 1, vi + 1, star, mark)
      else if pi < |pat| && pat[pi] == '*' then Scan(pat, val, pi + 1, vi, pi, vi)
      else star >= 0 && Scan(pat, val, star + 1, mark + 1, star, mark + 1)
    else AllStars(pat[pi..])
  }

  /** What the matcher answers. */
  predicate Matched(pattern: string, value: string) {
    pattern == "*" || pattern == "**" || Scan(pattern, value, 0, 0, -1, 0)
  }

  /** `glob_match`. */
  method GlobMatch(pattern: string, value: string) returns (r: bool)
    ensures r == Matched(pattern, value)
    ensures r ==> Means(pattern, value)
    ensures '*' !in value ==> r == Means(pattern, value)
  {
    MatchedMeans(pattern, value);
    if pattern == "*" || pattern == "**" {
      return true;
    }
    var pi, vi, star, mark := 0, 0, -1, 0;
    while vi < |value|
      invariant 0 <= pi <= |pattern| && 0 <= mark <= vi <= |value| && -1 <= star < pi
      invariant Scan(pattern, value, pi, vi, star, mark) == Scan(pattern, value, 0, 0, -1, 0)
      decreases |pattern| - star, |value| - mark, |value| - vi
    {
      if pi < |pattern| && (pattern[pi] == '?' || pattern[pi] == value[vi]) {
        pi, vi := pi + 1, vi + 1;
      } else if pi < |pattern| && pattern[pi] == '*' {
        star, mark, pi := pi, vi, pi + 1;
      } else if star != -1 {
        pi, mark, vi := star + 1, mark + 1, mark + 1;
      } else {
        return false;
      }
    }
    ghost var rest := pi;
    while pi < |pattern| && pattern[pi] == '*'
      invariant rest <= pi <= |pattern| && forall i :: rest <= i < pi ==> pattern[i] == '*'
    {
      pi := pi + 1;
    }
    assert pi < |pattern| ==> pattern[rest..][pi - rest] == pattern[pi];
    r := pi == |pattern|;
  }

  // ---- the meaning of stars ----

  lemma {:induction false} StarsMeanAny(p: string, v: string)
    requires AllStars(p) && (p != [] || v == [])
    ensures Means(p, v)
  {
    if v != [] {
      StarsMeanAny(p, v[1..]);
    } else if p != [] {
      StarsMeanAny(p[1..], v);
    }
  }

  lemma {:induction false} OnlyStarsMeanNothing(p: string)
    ensures Means(p, []) <==> AllStars(p)
  {
    if p != [] {
      OnlyStarsMeanNothing(p[1..]);
      assert AllStars(p) <==> p[0] == '*' && AllStars(p[1..]);
    }
  }

  /** A star in front takes some number of characters. */
  lemma {:induction false} StarTakes(p: string, v: string)
    requires p != [] && p[0] == '*'
    ensures Means(p, v) <==> exists k :: 0 <= k <= |v| && Means(p[1..], v[k..])
  {
    assert v[0..] == v;
    if v != [] {
      StarTakes(p, v[1..]);
      forall k | 0 <= k < |v| ensures v[1..][k..] == v[k + 1..] {
      }
      if k :| 0 <= k <= |v| && Means(p[1..], v[k..]) && !Means(p[1..], v) {
        assert v[1..][k - 1..] == v[k..];
      }
    }
  }

  /** A star-free prefix takes exactly its own length. */
  lemma {:induction false} PlainPrefix(mid: string, rest: string, v: string)
    requires '*' !in mid && Means(mid + rest, v)
    ensures |mid| <= |v| && Means(rest, v[|mid|..])
  {
    if mid == [] {
      assert mid + rest == rest && v[0..] == v;
    } else {
      assert (mid + rest)[0] == mid[0] && (mid + rest)[1..] == mid[1..] + rest;
      PlainPrefix(mid[1..], rest, v[1..]);
      assert v[1..][|mid| - 1..] == v[|mid|..];
    }
  }

  // ---- the loop ----

  /** What a state can still reach: a match from here, or from the last star taking more. */
  ghost predicate Open(pat: string, val: string, pi: nat, vi: nat, star: int, mark: nat)
    requires pi <= |pat| && vi <= |val| && mark <= vi && -1 <= star < pi
  {
    Means(pat[pi..], val[vi..]) || (star >= 0 && StarOpen(pat, val, star, mark + 1))
  }

  ghost predicate StarOpen(pat: string, val: string, star: nat, least: nat)
    requires star < |pat|
  {
    exists k :: least <= k <= |val| && Means(pat[star + 1..], val[k..])
  }

  lemma StarOpenHere(pat: string, val: string, pi: nat, vi: nat)
    requires pi < |pat| && pat[pi] == '*' && vi <= |val|
    ensures Means(pat[pi..], val[vi..]) <==> StarOpen(pat, val, pi, vi)
  {
    StarTakes(pat[pi..], val[vi..]);
    assert pat[pi..][1..] == pat[pi + 1..];
    assert forall k :: 0 <= k <= |val| - vi ==> val[vi..][k..] == val[vi + k..];
    if k :| vi <= k <= |val| && Means(pat[pi + 1..], val[k..]) {
      assert val[vi..][k - vi..] == val[k..];
    }
  }

  lemma StarOpenNext(pat: string, val: string, star: nat, least: nat)
    requires star < |pat| && least <= |val|
    ensures StarOpen(pat, val, star, least) <==> Means(pat[star + 1..], val[least..]) || StarOpen(pat, val, star, least + 1)
  {
  }

  /** The loop never accepts what the pattern does not mean. */
  lemma {:induction false} ScanSound(pat: string, val: string, pi: nat, vi: nat, star: int, mark: nat)
    requires pi <= |pat| && vi <= |val| && mark <= vi && -1 <= star < pi && Scan(pat, val, pi, vi, star, mark)
    ensures Open(pat, val, pi, vi, star, mark)
    decreases |pat| - star, |val| - mark, |val| - vi
  {
    if vi == |val| {
      OnlyStarsMeanNothing(pat[pi..]);
    } else if pi < |pat| && Fits(pat[pi], val[vi]) {
      ScanSound(pat, val, pi + 1, vi + 1, star, mark);
      TakesOne(pat, val, pi, vi);
    } else if pi < |pat| && pat[pi] == '*' {
      ScanSound(pat, val, pi + 1, vi, pi, vi);
      StarOpenNext(pat, val, pi, vi);
      StarOpenHere(pat, val, pi, vi);
    } else {
      ScanSound(pat, val, star + 1, mark + 1, star, mark + 1);
      StarOpenNext(pat, val, star, mark + 1);
    }
  }

  lemma TakesOne(pat: string, val: string, pi: nat, vi: nat)
    requires pi < |pat| && vi < |val| && Fits(pat[pi], val[vi])
    ensures Means(pat[pi + 1..], val[vi + 1..]) ==> Means(pat[pi..], val[vi..])
    ensures pat[pi] != '*' && Means(pat[pi..], val[vi..]) ==> Means(pat[pi + 1..], val[vi + 1..])
  {
    assert pat[pi..][1..] == pat[pi + 1..] && val[vi..][1..] == val[vi + 1..];
    if pat[pi] == '*' && Means(pat[pi + 1..], val[vi + 1..]) {
      assert Means(pat[pi..], val[vi..][1..]);
    }
  }

  /** The pattern since the last star is plain, and has consumed the value since the star's mark. */
  predicate InStep(pat: string, pi: nat, vi: nat, star: int, mark: nat)
    requires pi <= |pat| && -1 <= star < pi
  {
    star >= 0 ==> '*' !in pat[star + 1..pi] && pi - (star + 1) == vi - mark
  }

  /** On a value without `*`, going back to the last star only loses nothing. */
  lemma {:induction false} ScanComplete(pat: string, val: string, pi: nat, vi: nat, star: int, mark: nat)
    requires pi <= |pat| && vi <= |val| && mark <= vi && -1 <= star < pi && '*' !in val
    requires InStep(pat, pi, vi, star, mark) && Open(pat, val, pi, vi, star, mark)
    ensures Scan(pat, val, pi, vi, star, mark)
    decreases |pat| - star, |val| - mark, |val| - vi
  {
    if star >= 0 {
      LaterStarMoves(pat, val, pi, vi, star, mark);
    }
    if vi == |val| {
      OnlyStarsMeanNothing(pat[pi..]);
    } else if pi < |pat| && Fits(pat[pi], val[vi]) {
      assert pat[pi] != '*';
      TakesOne(pat, val, pi, vi);
      assert star >= 0 ==> pat[star + 1..pi + 1] == pat[star + 1..pi] + [pat[pi]];
      ScanComplete(pat, val, pi + 1, vi + 1, star, mark);
    } else if pi < |pat| && pat[pi] == '*' {
      StarOpenHere(pat, val, pi, vi);
      StarOpenNext(pat, val, pi, vi);
      ScanComplete(pat, val, pi + 1, vi, pi, vi);
    } else {
      assert !Means(pat[pi..], val[vi..]);
      StarOpenNext(pat, val, star, mark + 1);
      ScanComplete(pat, val, star + 1, mark + 1, star, mark + 1);
    }
  }

  /** If the last star could take more, a next star at `pi` could stand further on, and the value has not
      been used up. */
  lemma LaterStarMoves(pat: string, val: string, pi: nat, vi: nat, star: nat, mark: nat)
    requires pi <= |pat| && mark <= vi <= |val| && star < pi && InStep(pat, pi, vi, star, mark)
    ensures StarOpen(pat, val, star, mark + 1) ==> vi < |val|
    ensures StarOpen(pat, val, star, mark + 1) && pi < |pat| && pat[pi] == '*' ==> StarOpen(pat, val, pi, vi)
  {
    if StarOpen(pat, val, star, mark + 1) {
      var k :| mark + 1 <= k <= |val| && Means(pat[star + 1..], val[k..]);
      var mid := pat[star + 1..pi];
      assert pat[star + 1..] == mid + pat[pi..];
      PlainPrefix(mid, pat[pi..], val[k..]);
      var j := k + |mid|;
      assert val[k..][|mid|..] == val[j..];
      if pi < |pat| && pat[pi] == '*' {
        StarOpenHere(pat, val, pi, j);
      }
    }
  }

  /** A true answer is always right, and on values without `*` every answer is. */
  lemma MatchedMeans(pattern: string, value: string)
    ensures Matched(pattern, value) ==> Means(pattern, value)
    ensures '*' !in value ==> (Matched(pattern, value) <==> Means(pattern, value))
  {
    assert pattern[0..] == pattern && value[0..] == value;
    if pattern == "*" || pattern == "**" {
      StarsMeanAny(pattern, value);
    } else {
      if Scan(pattern, value, 0, 0, -1, 0) {
        ScanSound(pattern, value, 0, 0, -1, 0);
      }
      if '*' !in value && Means(pattern, value) {
        ScanComplete(pattern, value, 0, 0, -1, 0);
      }
    }
  }

  // ---- values with a star ----

  function AnyOnes(n: nat): (r: string)
    ensures |r| == n && forall i :: 0 <= i < n ==> r[i] == '?'
  {
    seq(n, i => '?')
  }

  /** Every pattern is matched as meant on exactly the values without `*`: the loop takes a star in the
      value for the pattern's own, and never comes back to it. */
  lemma MatcherExactIff(value: string)
    ensures '*' !in value <==> forall p: string :: Matched(p, value) <==> Means(p, value)
  {
    forall p: string ensures '*' !in value ==> (Matched(p, value) <==> Means(p, value)) {
      MatchedMeans(p, value);
    }
    if n :| 0 <= n < |value| && value[n] == '*' {
      StarEaten(value, n);
    }
  }

  lemma StarEaten(value: string, n: nat)
    requires n < |value| && value[n] == '*'
    ensures var p := AnyOnes(n) + "*" + AnyOnes(|value| - n);
            Means(p, value) && !Matched(p, value)
  {
    var p := AnyOnes(n) + "*" + AnyOnes(|value| - n);
    OnesMean(AnyOnes(|value| - n), value[n..]);
    assert p[n..][1..] == AnyOnes(|value| - n);
    assert Means(p[n..], value[n..]);
    OnesBefore(p, value, n);
    assert p[0..] == p && value[0..] == value;
    EatenScan(p, value, 0);
    assert p[|p| - 1] == '?';
  }

  lemma {:induction false} OnesMean(p: string, v: string)
    requires |p| == |v| && forall i :: 0 <= i < |p| ==> p[i] == '?'
    ensures Means(p, v)
  {
    if p != [] {
      OnesMean(p[1..], v[1..]);
    }
  }

  lemma {:induction false} OnesBefore(p: string, v: string, n: nat)
    requires n <= |p| && n <= |v| && Means(p[n..], v[n..]) && forall i :: 0 <= i < n ==> p[i] == '?'
    ensures Means(p[0..], v[0..])
  {
    if n > 0 {
      assert p[n - 1..][1..] == p[n..] && v[n - 1..][1..] == v[n..];
      OnesBefore(p, v, n - 1);
    }
  }

  lemma {:induction false} EatenScan(p: string, v: string, i: nat)
    requires i <= |v| && |p| == |v| + 1 && p[|v|] == '?'
    requires forall j :: 0 <= j < |v| ==> Fits(p[j], v[j])
    ensures !Scan(p, v, i, i, -1, 0)
    decreases |v| - i
  {
    if i < |v| {
      EatenScan(p, v, i + 1);
    } else {
      assert p[i..][0] == '?';
    }
  }
}
