/** When the log rotates: never while the written texts fit, and every file left behind is full. */
module LogRotation {
  import opened LogLines
  import opened LogStore

  function Text(op: Op): Bytes {
    match op
    case Write(line) => line + [NL]
    case Reopen => []
  }

  /** Everything a run writes. */
  function AllText(ops: seq<Op>): Bytes {
    if ops == [] then [] else AllText(ops[..|ops| - 1]) + Text(ops[|ops| - 1])
  }

  // ---- one step ----

  lemma FitsStep(d: Disk, files: nat, size: nat, op: Op)
    requires |FileAt(d, 0)| + |Text(op)| <= size || op.Reopen?
    ensures var after := Step(d, files, size, op);
            FileAt(after, 0) == FileAt(d, 0) + Text(op) &&
            forall i :: i > 0 ==> (i in after <==> i in d) && FileAt(after, i) == FileAt(d, i)
  {
    match op
    case Write(line) => assert FileAt(d, 0) + line + [NL] == FileAt(d, 0) + (line + [NL]);
    case Reopen => assert FileAt(d, 0) + [] == FileAt(d, 0);
  }

  lemma OverflowStep(d: Disk, files: nat, size: nat, line: Bytes)
    requires |FileAt(d, 0)| + |line| + 1 > size
    ensures var after := Step(d, files, size, Write(line));
            FileAt(after, 0) == line + [NL] &&
            forall i :: 0 < i < files ==> (i in after <==> i - 1 in d) && FileAt(after, i) == FileAt(d, i - 1)
  {
    assert [] + line + [NL] == line + [NL];
  }

  // ---- while everything fits ----

  lemma TextGrows(ops: seq<Op>)
    requires ops != []
    ensures |AllText(ops)| == |AllText(ops[..|ops| - 1])| + |Text(ops[|ops| - 1])|
  {
  }

  /** As long as the current file has room for everything a run writes, the run appends to it and touches no
      other file. */
  lemma {:induction false} FittingRun(disk: Disk, files: nat, size: nat, ops: seq<Op>)
    requires |FileAt(disk, 0)| + |AllText(ops)| <= size
    ensures var after := Run(disk, files, size, ops);
            FileAt(after, 0) == FileAt(disk, 0) + AllText(ops) &&
            forall i :: i > 0 ==> (i in after <==> i in disk) && FileAt(after, i) == FileAt(disk, i)
  {
    if ops == [] {
      assert FileAt(disk, 0) + [] == FileAt(disk, 0);
    } else {
      var before, op := ops[..|ops| - 1], ops[|ops| - 1];
      TextGrows(ops);
      FittingRun(disk, files, size, before);
      FitsStep(Run(disk, files, size, before), files, size, op);
      assert FileAt(disk, 0) + AllText(before) + Text(op) == FileAt(disk, 0) + (AllText(before) + Text(op));
    }
  }

  // ---- what a rotation leaves behind ----

  /** File `i + 1` is there, and the text that began file `i` did not fit behind it. */
  ghost predicate LeftFull(d: Disk, size: nat, texts: set<Bytes>, i: nat) {
    i + 1 in d && exists t :: t in texts && t <= FileAt(d, i) && |FileAt(d, i + 1)| + |t| > size
  }

  /** `now` is `was` rotated `r` times: the old files stand `r` places up, the old current file begins the one it
      became, and every file that was left behind on the way was full. */
  ghost predicate Rolled(was: Disk, now: Disk, files: nat, size: nat, texts: set<Bytes>, r: nat) {
    (forall i :: r < i < files ==> (i in now <==> i - r in was) && FileAt(now, i) == FileAt(was, i - r)) &&
    (r < files ==> FileAt(was, 0) <= FileAt(now, r)) &&
    (forall i :: 0 <= i < r && i < files - 1 ==> LeftFull(now, size, texts, i))
  }

  lemma FitsRolls(was: Disk, d: Disk, files: nat, size: nat, texts: set<Bytes>, r: nat, op: Op)
    requires Rolled(was, d, files, size, texts, r) && (|FileAt(d, 0)| + |Text(op)| <= size || op.Reopen?)
    ensures Rolled(was, Step(d, files, size, op), files, size, texts, r)
  {
    var after := Step(d, files, size, op);
    FitsStep(d, files, size, op);
    forall i | 0 <= i < r && i < files - 1 ensures LeftFull(after, size, texts, i) {
      assert LeftFull(d, size, texts, i);
      var t :| t in texts && t <= FileAt(d, i) && |FileAt(d, i + 1)| + |t| > size;
      assert t <= FileAt(after, i);
    }
  }

  lemma OverflowRolls(was: Disk, d: Disk, files: nat, size: nat, texts: set<Bytes>, r: nat, line: Bytes)
    requires Rolled(was, d, files, size, texts, r) && |FileAt(d, 0)| + |line| + 1 > size && line + [NL] in texts
    requires 0 in d
    ensures Rolled(was, Step(d, files, size, Write(line)), files, size, texts, r + 1)
  {
    var after := Step(d, files, size, Write(line));
    OverflowStep(d, files, size, line);
    forall i | 0 <= i < r + 1 && i < files - 1 ensures LeftFull(after, size, texts, i) {
      if i == 0 {
        assert line + [NL] <= FileAt(after, 0);
      } else {
        assert LeftFull(d, size, texts, i - 1);
        var t :| t in texts && t <= FileAt(d, i - 1) && |FileAt(d, i)| + |t| > size;
        assert t <= FileAt(after, i);
      }
    }
  }

  lemma CurrentExists(disk: Disk, files: nat, size: nat, ops: seq<Op>)
    requires 0 in disk || ops != []
    ensures 0 in Run(disk, files, size, ops)
    decreases |ops|
  {
    if ops != [] && 0 in disk {
      CurrentExists(disk, files, size, ops[..|ops| - 1]);
    }
  }

  /** Over every run the directory is the old one, rotated some number of times, and every file left behind is
      one that the next text did not fit in. */
  lemma {:induction false} RunRolls(disk: Disk, files: nat, size: nat, ops: seq<Op>, texts: set<Bytes>)
    requires 0 in disk && Texts(ops) <= texts
    ensures exists r :: Rolled(disk, Run(disk, files, size, ops), files, size, texts, r)
  {
    if ops == [] {
      assert Run(disk, files, size, ops) == disk;
      assert Rolled(disk, disk, files, size, texts, 0);
    } else {
      var before, op := ops[..|ops| - 1], ops[|ops| - 1];
      assert Texts(before) <= Texts(ops);
      RunRolls(disk, files, size, before, texts);
      var d := Run(disk, files, size, before);
      var r :| Rolled(disk, d, files, size, texts, r);
      CurrentExists(disk, files, size, before);
      assert Run(disk, files, size, ops) == Step(d, files, size, op);
      if op.Write? && |FileAt(d, 0)| + |Text(op)| > size {
        assert Text(op) in Texts(ops);
        OverflowRolls(disk, d, files, size, texts, r, op.line);
      } else {
        FitsRolls(disk, d, files, size, texts, r, op);
      }
    }
  }

  // ---- how much a log keeps ----

  function BytesKept(d: Disk, k: nat): nat {
    if k == 0 then 0 else BytesKept(d, k - 1) + |FileAt(d, k - 1)|
  }

  /** In a log that began empty, any file together with the next older one exceeds the size limit. */
  lemma NeighboursExceed(files: nat, size: nat, ops: seq<Op>, i: nat)
    requires i < files - 1 && i + 1 in Run(map[0 := []], files, size, ops)
    ensures var d := Run(map[0 := []], files, size, ops); |FileAt(d, i)| + |FileAt(d, i + 1)| > size
  {
    var d := Run(map[0 := []], files, size, ops);
    RunRolls(map[0 := []], files, size, ops, Texts(ops));
    var r :| Rolled(map[0 := []], d, files, size, Texts(ops), r);
    assert i < r;
    assert LeftFull(d, size, Texts(ops), i);
  }

  /** So a full log keeps more than the size limit for every two of its files: no rotation drops lines early. */
  lemma {:induction false} FullLogKeeps(files: nat, size: nat, ops: seq<Op>, k: nat)
    requires k <= files && forall i :: 0 <= i < files ==> i in Run(map[0 := []], files, size, ops)
    ensures BytesKept(Run(map[0 := []], files, size, ops), k) >= k / 2 * (size + 1)
  {
    if k >= 2 {
      FullLogKeeps(files, size, ops, k - 2);
      NeighboursExceed(files, size, ops, k - 2);
      assert k / 2 == (k - 2) / 2 + 1;
      assert ((k - 2) / 2 + 1) * (size + 1) == (k - 2) / 2 * (size + 1) + (size + 1);
    }
  }
}
