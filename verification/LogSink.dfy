/** LogFileSink of src/state.rs: the object that writes, rotates and reads the chain. */
module LogSink {
  import opened Prelude
  import opened LogLines
  import opened LogStore
  import opened LogPages

  const FACET_LINES: nat := 2000
  const USIZE_MAX: nat := U64 - 1

  /** The tracked counts are the real ones, in newlines. */
  predicate Tracks(disk: Disk, files: nat, curBytes: nat, curLines: nat, rotatedLines: seq<nat>) {
    files >= 1 && 0 in disk &&
    curBytes == |disk[0]| && curLines == Newlines(disk[0]) && |rotatedLines| == files - 1 &&
    forall i :: 1 <= i < files ==> rotatedLines[i - 1] == Newlines(FileAt(disk, i))
  }

  class LogFileSink {
    const files: nat
    const sizeBytes: nat
    var disk: Disk
    var nextSeq: nat
    var curBytes: nat
    var curLines: nat
    var rotatedLines: seq<nat>
    /** Lines evicted since the store was opened. */
    ghost var evicted: nat

    ghost predicate Valid()
      reads this
    {
      1 <= files <= 10 && sizeBytes >= 1024 &&
      Tracks(disk, files, curBytes, curLines, rotatedLines) &&
      nextSeq == |Retained()| + evicted
    }

    /** The retained lines that the counts account for, oldest first: every line, when every file ends in a
        newline. */
    ghost function Retained(): seq<Bytes>
      reads this
    {
      SeenChain(disk, files)
    }

    /** `new`: clamps the settings and counts the existing files. */
    constructor (dir: Disk, files: nat, sizeBytes: nat, chunk: nat)
      requires chunk > 0
      ensures Valid() && evicted == 0 && disk == Opened(dir)
      ensures this.files == Clamp(files, 1, 10)
      ensures this.sizeBytes == if sizeBytes < 1024 then 1024 else sizeBytes
    {
      var n: nat := Clamp(files, 1, 10);
      this.files := n;
      this.sizeBytes := if sizeBytes < 1024 then 1024 else sizeBytes;
      var rotated := CountRotated(dir, n, chunk);
      var cur := CountLines(FileAt(dir, 0), chunk);
      disk := Opened(dir);
      curLines, curBytes, rotatedLines := cur, |FileAt(dir, 0)|, rotated;
      nextSeq, evicted := Sum(rotated) + cur, 0;
      TracksOpened(dir, n, rotated, cur);
    }

    /** `write`: rotates first when the line does not fit. It counts one line, so the counts stay right if and
        only if the line holds no newline of its own. */
    method Write(line: Bytes)
      requires Valid()
      modifies this
      ensures disk == Written(old(disk), files, sizeBytes, line)
      ensures nextSeq == old(nextSeq) + 1
      ensures Valid() <==> NL !in line
      ensures evicted == old(evicted) + |EvictedSeen(old(disk), files, sizeBytes, line)|
    {
      if curBytes + (|line| + 1) > sizeBytes {
        Rotate();
      }
      Append(line);
    }

    /** The line and its newline go to the end of the current file. */
    method Append(line: Bytes)
      requires Valid()
      modifies this
      ensures disk == old(disk)[0 := FileAt(old(disk), 0) + line + [NL]]
      ensures nextSeq == old(nextSeq) + 1 && evicted == old(evicted)
      ensures Valid() <==> NL !in line
    {
      SeenAppend(disk, files, line);
      NewlinesZeroIff(line);
      TracksAppended(disk, files, curBytes, curLines, rotatedLines, line);
      assert FileAt(disk, 0) == disk[0];
      disk := disk[0 := disk[0] + line + [NL]];
      curBytes, nextSeq, curLines := curBytes + (|line| + 1), nextSeq + 1, curLines + 1;
    }

    /** The existing files, oldest first, with their tracked counts. */
    method ExistingFiles() returns (list: seq<CountedFile>, ghost pieces: seq<seq<Bytes>>)
      requires Valid()
      ensures AllCounted(list, pieces) && Flatten(pieces) == Retained()
    {
      list, pieces := [], [];
      var i := files;
      assert Flatten(pieces) + SeenChain(disk, files) == SeenChain(disk, files);
      while i > 0
        invariant 0 <= i <= files && AllCounted(list, pieces)
        invariant Flatten(pieces) + SeenChain(disk, i) == SeenChain(disk, files)
      {
        i := i - 1;
        if i in disk {
          var count := if i == 0 then curLines else rotatedLines[i - 1];
          ChainPresent(disk, i, pieces);
          assert FileAt(disk, i) == disk[i];
          CountedSnoc(list, pieces, disk[i], count);
          list, pieces := list + [(disk[i], count)], pieces + [Seen(disk[i])];
        } else {
          ChainMissing(disk, i);
        }
      }
      assert Flatten(pieces) + [] == Flatten(pieces);
    }

    /** `read`: walks the files newest to oldest, opening only those that contribute, and returns exactly
        the page of the retained lines. */
    method Read(limit: nat, before: Option<nat>, chunk: nat) returns (entries: seq<LogEntry>, total: nat)
      requires Valid() && chunk > 0 && |Retained()| <= USIZE_MAX
      ensures entries == Page(Retained(), limit, before)
      ensures total == nextSeq
    {
      total := nextSeq;
      ghost var pieces;
      var list;
      list, pieces := ExistingFiles();
      var want := if limit == 0 then USIZE_MAX else if limit < FACET_LINES then FACET_LINES else limit;
      var collected := Collect(list, pieces, before, want, chunk);
      collected := Reverse(collected);
      var cut := if limit == 0 then 0 else MinusClamped(|collected|, limit);
      entries := collected[cut..];
      PageCut(Retained(), PageEnd(|Retained()|, before), limit, want);
    }

    /** `rotate`: shifts the files, then the tracked counts with them. */
    method Rotate()
      requires Valid()
      modifies this
      ensures Valid() && disk == Rotated(old(disk), files) && nextSeq == old(nextSeq)
      ensures evicted == old(evicted) + |Seen(FileAt(old(disk), files - 1))|
    {
      TracksRotated(disk, files, curBytes, curLines, rotatedLines);
      RotatedCounts(disk, files);
      evicted := evicted + |Seen(FileAt(disk, files - 1))|;
      RotateFiles();
      ShiftCounts();
      curLines, curBytes := 0, 0;
    }

    /** The renames, from the oldest file down; then a fresh current file. */
    method RotateFiles()
      requires files > 0 && 0 in disk
      modifies this`disk
      ensures disk == Rotated(old(disk), files)
    {
      ghost var d := disk;
      if files > 1 {
        disk := disk - {files - 1};
        var i := files - 1;
        while i > 1
          invariant 1 <= i <= files - 1
          invariant ShiftedAbove(files, d, disk, i)
        {
          i := i - 1;
          ShiftStep(files, d, disk, i + 1);
          disk := Rename(disk, i, i + 1);
        }
        ShiftEnds(files, d, disk);
      }
      disk := Rename(disk, 0, 1)[0 := []];
      assert files == 1 ==> disk == Rotated(d, files);
    }

    /** The counts follow: .i to .i+1, current to .1. */
    method ShiftCounts()
      requires files > 0 && |rotatedLines| == files - 1
      modifies this`rotatedLines
      ensures rotatedLines == ([curLines] + old(rotatedLines))[..files - 1]
    {
      if files > 1 {
        var i := files - 1;
        ghost var counts := rotatedLines;
        while i > 1
          invariant 1 <= i <= files - 1 && |rotatedLines| == files - 1
          invariant forall j :: i <= j < files - 1 ==> rotatedLines[j] == counts[j - 1]
          invariant forall j :: 0 <= j < i ==> rotatedLines[j] == counts[j]
        {
          i := i - 1;
          rotatedLines := rotatedLines[i := rotatedLines[i - 1]];
        }
        rotatedLines := rotatedLines[0 := curLines];
      }
    }
  }

  /** File `j` of a half-shifted directory: the files above suffix `i` have been moved up, `i` itself is
      gone, the ones below have not been touched. */
  function HalfShifted(files: nat, d: Disk, i: nat, j: nat): Option<Bytes> {
    if i < j < files then (if j - 1 in d then Some(d[j - 1]) else None)
    else if j != i && j in d then Some(d[j])
    else None
  }

  function Lookup(d: Disk, j: nat): Option<Bytes> {
    if j in d then Some(d[j]) else None
  }

  ghost predicate ShiftedAbove(files: nat, d: Disk, now: Disk, i: nat) {
    forall j :: Lookup(now, j) == HalfShifted(files, d, i, j)
  }

  lemma ShiftStep(files: nat, d: Disk, now: Disk, i: nat)
    requires 1 < i < files && ShiftedAbove(files, d, now, i)
    ensures ShiftedAbove(files, d, Rename(now, i - 1, i), i - 1)
  {
    assert Lookup(now, i - 1) == HalfShifted(files, d, i, i - 1) && Lookup(now, i) == None;
    var next := Rename(now, i - 1, i);
    forall j ensures Lookup(next, j) == HalfShifted(files, d, i - 1, j) {
      assert Lookup(now, j) == HalfShifted(files, d, i, j);
    }
  }

  lemma ShiftEnds(files: nat, d: Disk, now: Disk)
    requires 1 < files && ShiftedAbove(files, d, now, 1) && 0 in d
    ensures Rename(now, 0, 1)[0 := []] == Rotated(d, files)
  {
    assert Lookup(now, 0) == Some(d[0]);
    var r := Rename(now, 0, 1)[0 := []];
    forall j ensures Lookup(r, j) == Lookup(Rotated(d, files), j) {
      assert Lookup(now, j) == HalfShifted(files, d, 1, j);
    }
    assert forall j :: j in r <==> Lookup(r, j).Some?;
    assert forall j :: j in Rotated(d, files) <==> Lookup(Rotated(d, files), j).Some?;
    forall j | j in r ensures r[j] == Rotated(d, files)[j] {
      assert Lookup(r, j) == Lookup(Rotated(d, files), j);
    }
  }

  lemma RotatedCounts(disk: Disk, files: nat)
    requires files > 0
    ensures |SeenChain(Rotated(disk, files), files)| + |Seen(FileAt(disk, files - 1))| == |SeenChain(disk, files)|
  {
    SeenRotated(disk, files);
  }

  lemma TracksRotated(disk: Disk, files: nat, curBytes: nat, curLines: nat, rotatedLines: seq<nat>)
    requires Tracks(disk, files, curBytes, curLines, rotatedLines)
    ensures Tracks(Rotated(disk, files), files, 0, 0, ([curLines] + rotatedLines)[..files - 1])
  {
    var r := Rotated(disk, files);
    forall j | 0 < j < files ensures FileAt(r, j) == FileAt(disk, j - 1) {
    }
  }

  /** One more counted line for a written text is right if and only if the text holds no newline. */
  lemma TracksAppended(disk: Disk, files: nat, curBytes: nat, curLines: nat, rotatedLines: seq<nat>, line: Bytes)
    requires Tracks(disk, files, curBytes, curLines, rotatedLines)
    ensures Tracks(disk[0 := disk[0] + line + [NL]], files, curBytes + |line| + 1, curLines + 1, rotatedLines) <==>
            NL !in line
  {
    var after := disk[0 := disk[0] + line + [NL]];
    assert FileAt(disk, 0) == disk[0];
    NewlinesAppend(disk[0], line);
    NewlinesZeroIff(line);
    forall j | 0 < j < files ensures FileAt(after, j) == FileAt(disk, j) {
    }
  }

  /** A new object over the directory of an old one: the same lines are retained, and the total starts
      again from them. */
  method Reopen(sink: LogFileSink, chunk: nat) returns (again: LogFileSink)
    requires sink.Valid() && chunk > 0
    ensures fresh(again) && again.Valid() && again.disk == sink.disk && again.files == sink.files
    ensures again.Retained() == sink.Retained() && again.nextSeq == sink.nextSeq - sink.evicted
  {
    again := new LogFileSink(sink.disk, sink.files, sink.sizeBytes, chunk);
  }

  /** Reopening changes no entry and no number of any page. */
  method ReopenReads(sink: LogFileSink, limit: nat, before: Option<nat>, chunk: nat)
    returns (here: seq<LogEntry>, there: seq<LogEntry>)
    requires sink.Valid() && chunk > 0 && |sink.Retained()| <= USIZE_MAX
    ensures here == there == Page(sink.Retained(), limit, before)
  {
    var again := Reopen(sink, chunk);
    var total, restarted;
    here, total := sink.Read(limit, before, chunk);
    there, restarted := again.Read(limit, before, chunk);
  }

  /** The older-pages walk over a running store: as long as nothing is evicted it reads every entry retained
      at its start exactly once and in order, whatever is written, rotated and reopened between the pages. */
  lemma WalkWhileRunning(disk: Disk, files: nat, size: nat, runs: seq<seq<Op>>, limit: nat)
    requires files > 0 && Appendable(disk, size) && limit > 0 && runs != []
    requires forall i :: 0 <= i < |runs| ==> Evictionless(disk, files, size, runs[i])
    requires forall i :: 0 <= i < |runs| - 1 ==> runs[i] <= runs[i + 1]
    requires |runs| * limit >= |SeenChain(Run(disk, files, size, runs[0]), files)|
    ensures WalkBack(StoresOf(disk, files, size, runs), limit, None) ==
            Entries(SeenChain(Run(disk, files, size, runs[0]), files))
  {
    var stores := StoresOf(disk, files, size, runs);
    forall i | 0 <= i < |stores| - 1 ensures stores[i] <= stores[i + 1] {
      LongerRun(runs[i], runs[i + 1], disk, files, size);
      RunGrows(disk, files, size, runs[i]);
      RunGrows(disk, files, size, runs[i + 1]);
    }
    WalkBackIsWholeLog(stores, limit);
  }

  /** What is retained, as `read` shows it, when each page is read. */
  function StoresOf(disk: Disk, files: nat, size: nat, runs: seq<seq<Op>>): (r: seq<seq<Bytes>>)
    ensures |r| == |runs|
    ensures forall i {:trigger r[i]} :: 0 <= i < |r| ==> r[i] == SeenChain(Run(disk, files, size, runs[i]), files)
  {
    seq(|runs|, i requires 0 <= i < |runs| => SeenChain(Run(disk, files, size, runs[i]), files))
  }

  /** The counts of the rotated files, oldest first. */
  method CountRotated(dir: Disk, files: nat, chunk: nat) returns (rotated: seq<nat>)
    requires chunk > 0 && files > 0
    ensures |rotated| == files - 1
    ensures forall j :: 1 <= j < files ==> rotated[j - 1] == Newlines(FileAt(dir, j))
  {
    rotated := seq(files - 1, i => 0);
    var i := files;
    while i > 1
      invariant 1 <= i <= files && |rotated| == files - 1
      invariant forall j :: i <= j < files ==> rotated[j - 1] == Newlines(FileAt(dir, j))
    {
      i := i - 1;
      var c := CountLines(FileAt(dir, i), chunk);
      rotated := rotated[i - 1 := c];
    }
  }

  // ---- reading ----

  /** A file with its tracked line count. */
  type CountedFile = (Bytes, nat)

  ghost predicate Counted(f: CountedFile, lines: seq<Bytes>) {
    lines == Seen(f.0) && f.1 == |lines|
  }

  /** The files of a list hold these pieces, and their counts are right. */
  ghost predicate AllCounted(list: seq<CountedFile>, pieces: seq<seq<Bytes>>) {
    |list| == |pieces| &&
    forall i {:trigger Counted(list[i], pieces[i])} :: 0 <= i < |list| ==> Counted(list[i], pieces[i]) && list[i].1 == |pieces[i]|
  }

  lemma CountedSnoc(list: seq<CountedFile>, pieces: seq<seq<Bytes>>, file: Bytes, count: nat)
    requires AllCounted(list, pieces) && count == Newlines(file)
    ensures AllCounted(list + [(file, count)], pieces + [Seen(file)])
  {
    var l, p := list + [(file, count)], pieces + [Seen(file)];
    forall i {:trigger Counted(l[i], p[i])} | 0 <= i < |l| ensures Counted(l[i], p[i]) && l[i].1 == |p[i]| {
      if i < |list| { assert Counted(list[i], pieces[i]); }
    }
  }

  lemma FlattenSnoc<T>(pieces: seq<seq<T>>, p: seq<T>)
    ensures Flatten(pieces + [p]) == Flatten(pieces) + p
  {
    FlattenConcat(pieces, [p]);
    assert Flatten([p]) == p + [];
  }

  lemma FlattenAt<T>(pieces: seq<seq<T>>, idx: nat)
    requires idx < |pieces|
    ensures var base := |Flatten(pieces[..idx])|;
            |Flatten(pieces[..idx + 1])| == base + |pieces[idx]| <= |Flatten(pieces)| &&
            Flatten(pieces)[base..base + |pieces[idx]|] == pieces[idx]
  {
    assert pieces[..idx + 1] == pieces[..idx] + [pieces[idx]] && pieces == pieces[..idx + 1] + pieces[idx + 1..];
    FlattenSnoc(pieces[..idx], pieces[idx]);
    FlattenConcat(pieces[..idx + 1], pieces[idx + 1..]);
  }

  /** Prefix sums of the counts: the number of each file's first line. */
  method Bases(list: seq<CountedFile>, ghost pieces: seq<seq<Bytes>>) returns (bases: seq<nat>)
    requires AllCounted(list, pieces)
    ensures |bases| == |list| && forall i :: 0 <= i < |list| ==> bases[i] == |Flatten(pieces[..i])|
  {
    bases := [];
    var base := 0;
    for i := 0 to |list|
      invariant |bases| == i && base == |Flatten(pieces[..i])|
      invariant forall j :: 0 <= j < i ==> bases[j] == |Flatten(pieces[..j])|
    {
      bases := bases + [base];
      assert Counted(list[i], pieces[i]);
      base := base + list[i].1;
      FlattenAt(pieces, i);
    }
  }

  function MinusClamped(a: nat, b: int): nat {
    if b < 0 then a else if a > b then a - b else 0
  }

  function Reverse<T>(s: seq<T>): (r: seq<T>)
    ensures |r| == |s| && forall i {:trigger r[i]} :: 0 <= i < |s| ==> r[i] == s[|s| - 1 - i]
  {
    if s == [] then [] else [s[|s| - 1]] + Reverse(s[..|s| - 1])
  }

  /** The entries gathered once every file from position `base` on has been read. */
  function CollectedFrom(base: nat, hi: nat, most: nat): (lo: nat)
    ensures lo <= hi
  {
    if Least(base, hi) < hi - Least(hi, most) then hi - Least(hi, most) else Least(base, hi)
  }

  function Collected(lines: seq<Bytes>, base: nat, hi: nat, most: nat): seq<LogEntry>
    requires hi <= |lines|
  {
    Entries(lines)[CollectedFrom(base, hi, most)..hi]
  }

  /** The lines first..first+take of a file as entries numbered from `base`. */
  function EntriesAt(lines: seq<Bytes>, base: nat, first: nat, take: nat): (r: seq<LogEntry>)
    requires first + take <= |lines|
    ensures |r| == take
    ensures forall i {:trigger r[i]} :: 0 <= i < take ==> r[i] == LogEntry(base + first + i, Clean(lines[first + i]))
  {
    seq(take, i requires 0 <= i < take => LogEntry(base + first + i, Clean(lines[first + i])))
  }

  lemma EntriesAtIs(lines: seq<Bytes>, file: seq<Bytes>, base: nat, first: nat, take: nat)
    requires first + take <= |file| && base + |file| <= |lines|
    requires lines[base..base + |file|] == file
    ensures EntriesAt(file, base, first, take) == Entries(lines)[base + first..base + first + take]
  {
  }

  /** Where the planned part of the next older file lies: directly below what has been collected. */
  lemma PlanNumbers(count: nat, base: nat, hi: nat, most: nat, take: nat, skipEnd: nat)
    requires hi - CollectedFrom(base + count, hi, most) < most
    requires skipEnd == count - Least(count, MinusClamped(hi, base))
    requires take == Least(most - (hi - CollectedFrom(base + count, hi, most)), count - skipEnd)
    ensures take == CollectedFrom(base + count, hi, most) - CollectedFrom(base, hi, most)
    ensures skipEnd + take <= count && hi - CollectedFrom(base, hi, most) <= most
    ensures take > 0 ==> base + count - skipEnd == CollectedFrom(base + count, hi, most)
  {
  }

  lemma ReverseSnoc<T>(s: seq<T>, x: T)
    ensures Reverse(s + [x]) == [x] + Reverse(s)
  {
    assert (s + [x])[..|s|] == s;
  }

  /** The pushes of one file's window, newest line first. */
  method Push(lines: seq<Bytes>, last: nat, ghost es: seq<LogEntry>, collected: seq<LogEntry>) returns (r: seq<LogEntry>)
    requires |es| == |lines| <= last + 1
    requires forall i :: 0 <= i < |es| ==> es[i] == LogEntry(last + 1 - |es| + i, Clean(lines[i]))
    ensures Reverse(r) == es + Reverse(collected)
  {
    r := collected;
    assert Reverse(r) == [] + Reverse(collected);
    for k := 0 to |lines|
      invariant Reverse(r) == es[|es| - k..] + Reverse(collected)
    {
      var e := LogEntry(last - k, Clean(lines[|lines| - 1 - k]));
      assert e == es[|es| - 1 - k];
      ReverseSnoc(r, e);
      r := r + [e];
    }
  }

  /** One file's part: its tail window, split into lines. A file that gives nothing is not opened. */
  method Gather(file: CountedFile, ghost lines: seq<Bytes>, base: nat, skipEnd: nat, take: nat, chunk: nat,
                collected: seq<LogEntry>)
    returns (r: seq<LogEntry>)
    requires chunk > 0 && Counted(file, lines) && skipEnd + take <= file.1 == |lines| && file.1 < U64
    ensures Reverse(r) == EntriesAt(lines, base, file.1 - skipEnd - take, take) + Reverse(collected)
  {
    ghost var es := EntriesAt(lines, base, file.1 - skipEnd - take, take);
    if take == 0 {
      assert es == [];
      return collected;
    }
    var window := WindowOf(file.0, lines, skipEnd, take, chunk);
    r := Push(window, base + file.1 - 1 - skipEnd, es, collected);
  }

  method WindowOf(file: Bytes, ghost lines: seq<Bytes>, skipEnd: nat, take: nat, chunk: nat) returns (window: seq<Bytes>)
    requires chunk > 0 && lines == Seen(file) && skipEnd + take <= |lines| < U64 && take > 0
    ensures window == lines[|lines| - skipEnd - take..|lines| - skipEnd]
  {
    var bytes := ReadTail(file, skipEnd, take, chunk);
    WindowLines(file, skipEnd, take);
    window := Lines(bytes.value);
  }

  /** A tail window splits back into the lines it was cut from. */
  lemma WindowLines(s: Bytes, skip: nat, take: nat)
    requires skip + take <= |Seen(s)|
    ensures var lines := Seen(s);
            Lines(Window(s, skip, take)) == lines[|lines| - skip - take..|lines| - skip]
  {
    LinesCount(s);
    LinesShaped(s);
    SplitBack(Lines(s), Partial(s), skip, take);
  }

  lemma LinesShaped(s: Bytes)
    ensures Shaped(Lines(s))
  {
    LinesShape(s);
  }

  lemma SplitBack(all: seq<Bytes>, p: nat, skip: nat, take: nat)
    requires Shaped(all) && p <= |all| && skip + take <= |all| - p
    ensures var lines := all[p..];
            Lines(Flatten(FromEnd(all, skip, take))) == lines[|lines| - skip - take..|lines| - skip]
  {
    LinesOfSlice(all, skip, take);
    SameFromEnd(all, p, skip, take);
  }

  predicate Shaped(lines: seq<Bytes>) {
    forall i :: 0 <= i < |lines| ==> IsLine(lines[i]) && (i < |lines| - 1 ==> Closed(lines[i]))
  }

  lemma LinesOfSlice(all: seq<Bytes>, skip: nat, take: nat)
    requires Shaped(all)
    ensures Lines(Flatten(FromEnd(all, skip, take))) == FromEnd(all, skip, take)
  {
    LinesOfLines(FromEnd(all, skip, take));
  }

  lemma SameFromEnd(all: seq<Bytes>, p: nat, skip: nat, take: nat)
    requires p <= |all| && skip + take <= |all| - p
    ensures var lines := all[p..];
            FromEnd(all, skip, take) == lines[|lines| - skip - take..|lines| - skip]
  {
  }

  /** Lines, the last of which may lack its newline, are the lines of their text. */
  lemma {:induction false} LinesOfLines(lines: seq<Bytes>)
    requires Shaped(lines)
    ensures Lines(Flatten(lines)) == lines
  {
    if lines != [] {
      LinesOfLines(lines[1..]);
      if Closed(lines[0]) {
        var text := lines[0][..|lines[0]| - 1];
        OneLine(text);
        assert lines[0] == text + [NL];
        LinesConcat(lines[0], Flatten(lines[1..]));
      } else {
        OneOpenLine(lines[0]);
        assert lines[1..] == [] && lines[0] + [] == lines[0];
      }
    }
  }

  /** The walk from the newest file to the oldest: the newest `want` entries below `before`. */
  method Collect(list: seq<CountedFile>, ghost pieces: seq<seq<Bytes>>, before: Option<nat>, want: nat, chunk: nat)
    returns (collected: seq<LogEntry>)
    requires AllCounted(list, pieces) && chunk > 0 && |Flatten(pieces)| <= USIZE_MAX
    ensures Reverse(collected) == Collected(Flatten(pieces), 0, PageEnd(|Flatten(pieces)|, before), want)
  {
    ghost var lines := Flatten(pieces);
    ghost var hi := PageEnd(|lines|, before);
    var bases := Bases(list, pieces);
    collected := [];
    var left := want;
    var idx := |list|;
    NothingCollected(pieces, hi, want);
    while idx > 0 && left > 0
      invariant 0 <= idx <= |list| && |collected| <= want && left == want - |collected|
      invariant Reverse(collected) == Collected(lines, |Flatten(pieces[..idx])|, hi, want)
    {
      idx := idx - 1;
      collected := Visit(list, pieces, idx, bases[idx], before, want, chunk, collected);
      left := want - |collected|;
    }
    AllCollected(pieces, idx, hi, want, |collected|);
  }

  /** The requested page is the end of the scanned window. */
  lemma PageCut(lines: seq<Bytes>, hi: nat, limit: nat, want: nat)
    requires hi <= |lines| <= USIZE_MAX && want >= limit && (limit == 0 ==> want == USIZE_MAX)
    ensures var window := Collected(lines, 0, hi, want);
            window[if limit == 0 then 0 else MinusClamped(|window|, limit)..] ==
            Entries(lines)[PageStart(hi, limit)..hi]
  {
  }

  lemma NothingCollected(pieces: seq<seq<Bytes>>, hi: nat, want: nat)
    requires hi <= |Flatten(pieces)|
    ensures Reverse([]) == Collected(Flatten(pieces), |Flatten(pieces[..|pieces|])|, hi, want)
  {
    assert pieces[..|pieces|] == pieces;
  }

  lemma AllCollected(pieces: seq<seq<Bytes>>, idx: nat, hi: nat, want: nat, have: nat)
    requires idx <= |pieces| && hi <= |Flatten(pieces)| && (idx == 0 || have == want)
    requires have == hi - CollectedFrom(|Flatten(pieces[..idx])|, hi, want)
    ensures Collected(Flatten(pieces), |Flatten(pieces[..idx])|, hi, want) == Collected(Flatten(pieces), 0, hi, want)
  {
    assert pieces[..0] == [];
  }

  /** One file of the walk: plan its part and gather it; the collected page then reaches down to the
      file's first line. */
  method Visit(list: seq<CountedFile>, ghost pieces: seq<seq<Bytes>>, idx: nat, base: nat, before: Option<nat>,
               want: nat, chunk: nat, collected: seq<LogEntry>)
    returns (r: seq<LogEntry>)
    requires AllCounted(list, pieces) && idx < |list| && chunk > 0 && |Flatten(pieces)| <= USIZE_MAX
    requires |collected| < want && base == |Flatten(pieces[..idx])|
    requires Reverse(collected) ==
             Collected(Flatten(pieces), |Flatten(pieces[..idx + 1])|, PageEnd(|Flatten(pieces)|, before), want)
    ensures Reverse(r) == Collected(Flatten(pieces), base, PageEnd(|Flatten(pieces)|, before), want)
    ensures |r| <= want
  {
    FlattenAt(pieces, idx);
    assert Counted(list[idx], pieces[idx]);
    r := VisitFile(list[idx], pieces[idx], Flatten(pieces), base, before, want, chunk, collected);
  }

  method VisitFile(file: CountedFile, ghost piece: seq<Bytes>, ghost lines: seq<Bytes>, base: nat, before: Option<nat>,
                   want: nat, chunk: nat, collected: seq<LogEntry>)
    returns (r: seq<LogEntry>)
    requires chunk > 0 && Counted(file, piece) && file.1 == |piece| && base + |piece| <= |lines| <= USIZE_MAX
    requires lines[base..base + |piece|] == piece
    requires |collected| < want
    requires Reverse(collected) == Collected(lines, base + |piece|, PageEnd(|lines|, before), want)
    ensures Reverse(r) == Collected(lines, base, PageEnd(|lines|, before), want)
    ensures |r| <= want
  {
    var skipEnd, take := PlanFile(file.1, piece, lines, base, before, want, |collected|);
    r := Gather(file, piece, base, skipEnd, take, chunk, collected);
  }

  /** The plan for a file fits what has been collected after it. */
  method PlanFile(count: nat, ghost piece: seq<Bytes>, ghost lines: seq<Bytes>, base: nat, before: Option<nat>,
                  want: nat, have: nat)
    returns (skipEnd: nat, take: nat)
    requires count == |piece| && base + |piece| <= |lines| && have < want && lines[base..base + |piece|] == piece
    requires have == PageEnd(|lines|, before) - CollectedFrom(base + |piece|, PageEnd(|lines|, before), want)
    ensures skipEnd + take <= count && have + take <= want
    ensures EntriesAt(piece, base, count - skipEnd - take, take) +
            Collected(lines, base + |piece|, PageEnd(|lines|, before), want) ==
            Collected(lines, base, PageEnd(|lines|, before), want)
  {
    ghost var hi := PageEnd(|lines|, before);
    skipEnd, take := PlanRange(count, base, before, want, have, |lines|, hi);
    PlanFits(lines, piece, base, skipEnd, take, want, hi);
  }

  lemma PlanFits(lines: seq<Bytes>, piece: seq<Bytes>, base: nat, skipEnd: nat, take: nat, want: nat, hi: nat)
    requires base + |piece| <= |lines| && hi <= |lines| && skipEnd + take <= |piece|
    requires lines[base..base + |piece|] == piece
    requires take == CollectedFrom(base + |piece|, hi, want) - CollectedFrom(base, hi, want)
    requires take > 0 ==> base + |piece| - skipEnd == CollectedFrom(base + |piece|, hi, want)
    ensures EntriesAt(piece, base, |piece| - skipEnd - take, take) + Collected(lines, base + |piece|, hi, want) ==
            Collected(lines, base, hi, want)
  {
    PieceFits(lines, piece, base, |piece| - skipEnd - take, take, CollectedFrom(base + |piece|, hi, want), hi);
  }

  /** Where the planned part lies: directly below what has been collected. */
  method PlanRange(count: nat, base: nat, before: Option<nat>, want: nat, have: nat, ghost n: nat, ghost hi: nat)
    returns (skipEnd: nat, take: nat)
    requires base + count <= n && hi == PageEnd(n, before)
    requires have < want && have == hi - CollectedFrom(base + count, hi, want)
    ensures take == CollectedFrom(base + count, hi, want) - CollectedFrom(base, hi, want)
    ensures skipEnd + take <= count && have + take <= want
    ensures take > 0 ==> base + count - skipEnd == CollectedFrom(base + count, hi, want)
  {
    skipEnd, take := Plan(count, base, before, want - have, hi);
    PlanNumbers(count, base, hi, want, take, skipEnd);
  }

  /** The planned entries of a file, put in front of what has been collected, extend it downwards. */
  lemma PieceFits(lines: seq<Bytes>, piece: seq<Bytes>, base: nat, first: nat, take: nat, mid: nat, hi: nat)
    requires base + |piece| <= |lines| && take <= mid <= hi <= |lines| && first + take <= |piece|
    requires lines[base..base + |piece|] == piece
    requires base + first + take == mid || take == 0
    ensures EntriesAt(piece, base, first, take) + Entries(lines)[mid..hi] == Entries(lines)[mid - take..hi]
  {
    EntriesAtIs(lines, piece, base, first, take);
    Extends(Entries(lines), EntriesAt(piece, base, first, take), mid, hi);
  }

  lemma Extends<T>(all: seq<T>, es: seq<T>, mid: nat, hi: nat)
    requires |es| <= mid <= hi <= |all| && es == all[mid - |es|..mid]
    ensures es + all[mid..hi] == all[mid - |es|..hi]
  {
  }

  /** How many of a file's last lines to skip, and how many to take before them; none from an empty file
      or from one that lies at or after `before`. */
  method Plan(count: nat, base: nat, before: Option<nat>, want: nat, ghost hi: nat) returns (skipEnd: nat, take: nat)
    requires before.Some? ==> hi <= before.value && (hi == before.value || hi >= base + count)
    requires before.None? ==> hi >= base + count
    ensures skipEnd == count - Least(count, MinusClamped(hi, base))
    ensures take == Least(want, count - skipEnd)
  {
    if count == 0 || (before.Some? && base >= before.value) {
      return count, 0;
    }
    skipEnd := if before.Some? then MinusClamped(count, before.value - base) else 0;
    take := Least(want, count - skipEnd);
  }

  lemma ChainPresent(disk: Disk, i: nat, pieces: seq<seq<Bytes>>)
    requires i in disk
    ensures Flatten(pieces) + SeenChain(disk, i + 1) == Flatten(pieces + [Seen(disk[i])]) + SeenChain(disk, i)
  {
    FlattenSnoc(pieces, Seen(disk[i]));
  }

  lemma ChainMissing(disk: Disk, i: nat)
    requires i !in disk
    ensures SeenChain(disk, i + 1) == SeenChain(disk, i)
  {
  }

  lemma TracksOpened(dir: Disk, files: nat, rotated: seq<nat>, cur: nat)
    requires files > 0 && |rotated| == files - 1 && cur == Newlines(FileAt(dir, 0))
    requires forall i :: 1 <= i < files ==> rotated[i - 1] == Newlines(FileAt(dir, i))
    ensures Tracks(Opened(dir), files, |FileAt(dir, 0)|, cur, rotated)
    ensures |SeenChain(Opened(dir), files)| == Sum(rotated) + cur
  {
    assert forall i :: FileAt(Opened(dir), i) == FileAt(dir, i);
    CountsAddUp(Opened(dir), rotated, cur, files);
  }

  function Sum(s: seq<nat>): nat {
    if s == [] then 0 else Sum(s[..|s| - 1]) + s[|s| - 1]
  }

  lemma {:induction false} CountsAddUp(disk: Disk, rotated: seq<nat>, cur: nat, n: nat)
    requires n > 0 && |rotated| == n - 1 && cur == Newlines(FileAt(disk, 0))
    requires forall i :: 1 <= i < n ==> rotated[i - 1] == Newlines(FileAt(disk, i))
    ensures |SeenChain(disk, n)| == Sum(rotated) + cur
  {
    if n > 1 {
      CountsAddUp(disk, rotated[..n - 2], cur, n - 1);
    }
  }

  /** The newest entry after a write is the text written, if it holds no newline and does not end in a carriage return. */
  lemma NewestIsWritten(disk: Disk, files: nat, size: nat, line: Bytes)
    requires files > 0 && Appendable(disk, size) && NL !in line
    ensures var page := Page(SeenChain(Written(disk, files, size, line), files), 1, None);
            |page| == 1 && (page[0].raw == line <==> line == [] || line[|line| - 1] != CR)
  {
    WrittenSeen(disk, files, size, line);
    OneLine(line);
    NewestOf(SeenChain(disk, Keeping(disk, files, size, line)), line + [NL]);
    ReadsBackIff(line);
  }

  lemma NewestOf(lines: seq<Bytes>, last: Bytes)
    ensures Page(lines + [last], 1, None) == [LogEntry(|lines|, Clean(last))]
  {
    PageIsNewest(lines + [last], 1, None);
  }
}
