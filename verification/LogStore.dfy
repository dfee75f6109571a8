/** The rotating log store of src/state.rs: a chain of files with tracked line counts, and the paged
    reader over it. */
module LogStore {
  import opened LogLines

  /** The log directory: suffix 0 is `xavierdb.log`, suffix i is `xavierdb.log.i`. */
  type Disk = map<nat, Bytes>

  /** A file's content; a missing file reads as empty. */
  function FileAt(disk: Disk, i: nat): Bytes {
    if i in disk then disk[i] else []
  }

  /** The line lists of files 0..k-1, highest suffix (oldest) first. */
  function Join(lists: nat -> seq<Bytes>, k: nat): seq<Bytes> {
    if k == 0 then [] else lists(k - 1) + Join(lists, k - 1)
  }

  function LinesAt(disk: Disk): nat -> seq<Bytes> {
    (i: nat) => Lines(FileAt(disk, i))
  }

  /** The lines of the files with suffix below `k`, oldest file first. */
  function Chain(disk: Disk, k: nat): seq<Bytes> {
    Join(LinesAt(disk), k)
  }

  /** The lines of the chain that the tracked counts account for. */
  function SeenChain(disk: Disk, k: nat): seq<Bytes> {
    Join(SeenAt(disk), k)
  }

  function SeenAt(disk: Disk): nat -> seq<Bytes> {
    (i: nat) => Seen(FileAt(disk, i))
  }

  /** Every file of the chain ends in a newline. */
  predicate AllClosed(disk: Disk, files: nat) {
    forall i :: 0 <= i < files ==> Closed(FileAt(disk, i))
  }

  // ---- what the operations do to the directory ----

  function Rename(disk: Disk, from: nat, to: nat): Disk {
    if from in disk then (disk - {from})[to := disk[from]] else disk
  }

  /** The highest suffix a rotation writes. With `files` = 1 the current file is still renamed to .1. */
  function Top(files: nat): nat {
    if files > 1 then files - 1 else 1
  }

  /** Files 1..k, each holding what the suffix below it held. */
  function Shifted(disk: Disk, k: nat): (r: Disk)
    ensures forall i :: i in r ==> 0 < i <= k
    ensures forall i :: 0 < i <= k ==> (i in r <==> i - 1 in disk) && (i in r ==> r[i] == disk[i - 1])
  {
    if k == 0 then map[]
    else if k - 1 in disk then Shifted(disk, k - 1)[k := disk[k - 1]]
    else Shifted(disk, k - 1)
  }

  /** A rotation shifts every file up by one suffix, dropping the one at the top, and starts a fresh
      current file. */
  function Rotated(disk: Disk, files: nat): (r: Disk)
    ensures 0 in r && r[0] == []
    ensures forall i :: 0 < i <= Top(files) ==> (i in r <==> i - 1 in disk) && (i in r ==> r[i] == disk[i - 1])
    ensures forall i :: i > Top(files) ==> (i in r <==> i in disk) && (i in r ==> r[i] == disk[i])
  {
    var beyond := map i | i in disk && i > Top(files) :: disk[i];
    (beyond + Shifted(disk, Top(files)))[0 := []]
  }

  predicate Overflows(disk: Disk, size: nat, line: Bytes) {
    |FileAt(disk, 0)| + |line| + 1 > size
  }

  /** One written line. */
  function Written(disk: Disk, files: nat, size: nat, line: Bytes): Disk {
    var d := if Overflows(disk, size, line) then Rotated(disk, files) else disk;
    d[0 := FileAt(d, 0) + line + [NL]]
  }

  /** Opening creates the current file when it is missing. */
  function Opened(disk: Disk): Disk {
    if 0 in disk then disk else disk[0 := []]
  }

  datatype Op = Write(line: Bytes) | Reopen

  function Step(disk: Disk, files: nat, size: nat, op: Op): Disk {
    match op
    case Write(line) => Written(disk, files, size, line)
    case Reopen => Opened(disk)
  }

  function Run(disk: Disk, files: nat, size: nat, ops: seq<Op>): Disk {
    if ops == [] then disk else Step(Run(disk, files, size, ops[..|ops| - 1]), files, size, ops[|ops| - 1])
  }

  /** The lines a step writes, with their newlines: one when the text holds none itself. */
  function Added(op: Op): seq<Bytes> {
    match op
    case Write(line) => Lines(line + [NL])
    case Reopen => []
  }

  /** The lines a run writes. */
  function Log(ops: seq<Op>): seq<Bytes> {
    if ops == [] then [] else Log(ops[..|ops| - 1]) + Added(ops[|ops| - 1])
  }

  // ---- the chain under the operations ----

  lemma {:induction false} JoinShift(was: nat -> seq<Bytes>, now: nat -> seq<Bytes>, k: nat)
    requires k > 0 && now(0) == [] && forall i :: 0 < i < k ==> now(i) == was(i - 1)
    ensures Join(now, k) == Join(was, k - 1)
  {
    if k > 1 {
      JoinShift(was, now, k - 1);
    } else {
      assert Join(now, 0) == [];
    }
  }

  lemma {:induction false} JoinAppend(was: nat -> seq<Bytes>, now: nat -> seq<Bytes>, k: nat, more: seq<Bytes>)
    requires k > 0 && now(0) == was(0) + more && forall i :: 0 < i < k ==> now(i) == was(i)
    ensures Join(now, k) == Join(was, k) + more
  {
    if k > 1 {
      JoinAppend(was, now, k - 1, more);
    } else {
      assert Join(now, 0) == [] && Join(was, 0) == [];
    }
  }

  lemma {:induction false} JoinSame(was: nat -> seq<Bytes>, now: nat -> seq<Bytes>, k: nat)
    requires forall i :: 0 <= i < k ==> now(i) == was(i)
    ensures Join(now, k) == Join(was, k)
  {
    if k > 0 {
      JoinSame(was, now, k - 1);
    }
  }

  lemma ChainRotated(disk: Disk, files: nat)
    requires 0 < files
    ensures Chain(Rotated(disk, files), files) == Chain(disk, files - 1)
  {
    var r := Rotated(disk, files);
    forall i | 0 < i < files ensures LinesAt(r)(i) == LinesAt(disk)(i - 1) {
      assert FileAt(r, i) == FileAt(disk, i - 1);
    }
    JoinShift(LinesAt(disk), LinesAt(r), files);
  }

  lemma SeenRotated(disk: Disk, files: nat)
    requires 0 < files
    ensures SeenChain(Rotated(disk, files), files) == SeenChain(disk, files - 1)
  {
    var r := Rotated(disk, files);
    forall i | 0 < i < files ensures SeenAt(r)(i) == SeenAt(disk)(i - 1) {
      assert FileAt(r, i) == FileAt(disk, i - 1);
    }
    JoinShift(SeenAt(disk), SeenAt(r), files);
  }

  /** In a chain whose files all end in a newline every line is accounted for. */
  lemma SeenIsChain(disk: Disk, k: nat)
    requires AllClosed(disk, k)
    ensures SeenChain(disk, k) == Chain(disk, k)
  {
    JoinSame(LinesAt(disk), SeenAt(disk), k);
  }

  lemma {:induction false} JoinMore(was: nat -> seq<Bytes>, now: nat -> seq<Bytes>, k: nat, more: nat)
    requires k > 0 && |now(0)| == |was(0)| + more && forall i :: 0 < i < k ==> now(i) == was(i)
    ensures |Join(now, k)| == |Join(was, k)| + more
  {
    if k > 1 {
      JoinMore(was, now, k - 1, more);
    } else {
      assert Join(now, 0) == [] && Join(was, 0) == [];
    }
  }

  lemma {:induction false} NewlinesZeroIff(line: Bytes)
    ensures Newlines(line) == 0 <==> NL !in line
  {
    if line != [] {
      NewlinesZeroIff(line[1..]);
      assert line == [line[0]] + line[1..];
    }
  }

  /** A written text adds its own newlines and the one behind it, whether or not the file ended in one. */
  lemma NewlinesAppend(file: Bytes, line: Bytes)
    ensures Newlines(file + line + [NL]) == Newlines(file) + Newlines(line) + 1
  {
    NewlinesConcat(file, line);
    NewlinesConcat(file + line, [NL]);
    assert Newlines([NL]) == 1 + Newlines([NL][1..]);
  }

  lemma SeenAppend(disk: Disk, k: nat, line: Bytes)
    requires k > 0
    ensures |SeenChain(disk[0 := FileAt(disk, 0) + line + [NL]], k)| == |SeenChain(disk, k)| + Newlines(line) + 1
  {
    var after := disk[0 := FileAt(disk, 0) + line + [NL]];
    NewlinesAppend(FileAt(disk, 0), line);
    forall i | 0 < i < k ensures SeenAt(after)(i) == SeenAt(disk)(i) {
      assert FileAt(after, i) == FileAt(disk, i);
    }
    JoinMore(SeenAt(disk), SeenAt(after), k, Newlines(line) + 1);
  }

  /** The accounted lines a write evicts. */
  function EvictedSeen(disk: Disk, files: nat, size: nat, line: Bytes): seq<Bytes>
    requires files > 0
  {
    if Overflows(disk, size, line) then Seen(FileAt(disk, files - 1)) else []
  }

  lemma LinesAppend(file: Bytes, line: Bytes)
    requires Closed(file)
    ensures Lines(file + line + [NL]) == Lines(file) + Lines(line + [NL])
    ensures Seen(file + line + [NL]) == Seen(file) + Lines(line + [NL])
  {
    LinesConcat(file, line + [NL]);
    assert file + line + [NL] == file + (line + [NL]);
    assert (file + line + [NL])[|file + line|] == NL;
  }

  lemma ChainAppend(disk: Disk, k: nat, line: Bytes)
    requires k > 0 && Closed(FileAt(disk, 0))
    ensures Chain(disk[0 := FileAt(disk, 0) + line + [NL]], k) == Chain(disk, k) + Lines(line + [NL])
    ensures SeenChain(disk[0 := FileAt(disk, 0) + line + [NL]], k) == SeenChain(disk, k) + Lines(line + [NL])
  {
    var after := disk[0 := FileAt(disk, 0) + line + [NL]];
    LinesAppend(FileAt(disk, 0), line);
    forall i | 0 < i < k ensures LinesAt(after)(i) == LinesAt(disk)(i) && SeenAt(after)(i) == SeenAt(disk)(i) {
      assert FileAt(after, i) == FileAt(disk, i);
    }
    JoinAppend(LinesAt(disk), LinesAt(after), k, Lines(line + [NL]));
    JoinAppend(SeenAt(disk), SeenAt(after), k, Lines(line + [NL]));
  }

  /** The lines a write evicts: the oldest file's, when it rotates. */
  function Evicted(disk: Disk, files: nat, size: nat, line: Bytes): seq<Bytes>
    requires files > 0
  {
    if Overflows(disk, size, line) then Lines(FileAt(disk, files - 1)) else []
  }

  lemma WrittenClosed(disk: Disk, files: nat, size: nat, line: Bytes)
    requires files > 0 && AllClosed(disk, files)
    ensures AllClosed(Written(disk, files, size, line), files)
  {
    var after := Written(disk, files, size, line);
    forall i | 0 <= i < files ensures Closed(FileAt(after, i)) {
      if i > 0 {
        assert FileAt(after, i) == if Overflows(disk, size, line) then FileAt(disk, i - 1) else FileAt(disk, i);
      } else {
        assert FileAt(after, 0)[|FileAt(after, 0)| - 1] == NL;
      }
    }
  }

  /** No written text can join a line that lacks its newline: the current file ends in one, or every write
      rotates it away first. */
  predicate Appendable(disk: Disk, size: nat) {
    Closed(FileAt(disk, 0)) || |FileAt(disk, 0)| + 1 > size
  }

  lemma WrittenAppendable(disk: Disk, files: nat, size: nat, line: Bytes)
    ensures Closed(FileAt(Written(disk, files, size, line), 0))
  {
    var file := FileAt(Written(disk, files, size, line), 0);
    assert file[|file| - 1] == NL;
  }

  /** How many files keep their lines in a write. */
  function Keeping(disk: Disk, files: nat, size: nat, line: Bytes): nat
    requires files > 0
  {
    if Overflows(disk, size, line) then files - 1 else files
  }

  /** A write drops the oldest file's lines if it rotates, and appends its own. */
  lemma WrittenChain(disk: Disk, files: nat, size: nat, line: Bytes)
    requires files > 0 && Appendable(disk, size)
    ensures Chain(disk, files) == Evicted(disk, files, size, line) + Chain(disk, Keeping(disk, files, size, line))
    ensures Chain(Written(disk, files, size, line), files) ==
            Chain(disk, Keeping(disk, files, size, line)) + Lines(line + [NL])
  {
    if Overflows(disk, size, line) {
      ChainRotated(disk, files);
      ChainAppend(Rotated(disk, files), files, line);
    } else {
      ChainAppend(disk, files, line);
      assert [] + Chain(disk, files) == Chain(disk, files);
    }
  }

  /** The same of the lines that the counts account for. */
  lemma WrittenSeen(disk: Disk, files: nat, size: nat, line: Bytes)
    requires files > 0 && Appendable(disk, size)
    ensures SeenChain(disk, files) == EvictedSeen(disk, files, size, line) + SeenChain(disk, Keeping(disk, files, size, line))
    ensures SeenChain(Written(disk, files, size, line), files) ==
            SeenChain(disk, Keeping(disk, files, size, line)) + Lines(line + [NL])
  {
    if Overflows(disk, size, line) {
      SeenRotated(disk, files);
      ChainAppend(Rotated(disk, files), files, line);
    } else {
      ChainAppend(disk, files, line);
      assert [] + SeenChain(disk, files) == SeenChain(disk, files);
    }
  }

  lemma OpenedChain(disk: Disk, k: nat)
    ensures Chain(Opened(disk), k) == Chain(disk, k) && SeenChain(Opened(disk), k) == SeenChain(disk, k)
    ensures AllClosed(Opened(disk), k) <==> AllClosed(disk, k)
  {
    assert forall i :: FileAt(Opened(disk), i) == FileAt(disk, i);
    JoinSame(LinesAt(disk), LinesAt(Opened(disk)), k);
    JoinSame(SeenAt(disk), SeenAt(Opened(disk)), k);
  }

  predicate IsSuffix(s: seq<Bytes>, all: seq<Bytes>) {
    |s| <= |all| && s == all[|all| - |s|..]
  }

  lemma SuffixGrows(s: seq<Bytes>, dropped: seq<Bytes>, kept: seq<Bytes>, all: seq<Bytes>, more: seq<Bytes>)
    requires IsSuffix(s, all) && s == dropped + kept
    ensures IsSuffix(kept + more, all + more)
  {
    assert kept == s[|dropped|..];
    assert (all + more)[|all| - |kept|..] == all[|all| - |kept|..] + more;
  }

  lemma {:induction false} RunAppendable(disk: Disk, files: nat, size: nat, ops: seq<Op>)
    requires Appendable(disk, size)
    ensures Appendable(Run(disk, files, size, ops), size)
  {
    if ops != [] {
      var d, op := Run(disk, files, size, ops[..|ops| - 1]), ops[|ops| - 1];
      RunAppendable(disk, files, size, ops[..|ops| - 1]);
      if op.Write? {
        WrittenAppendable(d, files, size, op.line);
      }
    }
  }

  /** One write or reopen keeps the chain a suffix of what is known. */
  lemma SuffixStep(d: Disk, files: nat, size: nat, op: Op, known: seq<Bytes>)
    requires files > 0 && Appendable(d, size) && IsSuffix(Chain(d, files), known)
    ensures IsSuffix(Chain(Step(d, files, size, op), files), known + Added(op))
  {
    if op.Write? {
      WrittenChain(d, files, size, op.line);
      SuffixGrows(Chain(d, files), Evicted(d, files, size, op.line), Chain(d, Keeping(d, files, size, op.line)), known,
                  Added(op));
    } else {
      OpenedChain(d, files);
      assert known + [] == known;
    }
  }

  /** Over every run of writes and reopens the chain, read oldest to newest, is a suffix of everything
      written, in write order. */
  lemma {:induction false} RunKeepsSuffix(disk: Disk, files: nat, size: nat, ops: seq<Op>)
    requires files > 0 && Appendable(disk, size)
    ensures IsSuffix(Chain(Run(disk, files, size, ops), files), Chain(disk, files) + Log(ops))
  {
    if ops == [] {
      assert Chain(disk, files) + [] == Chain(disk, files);
    } else {
      var before, op := ops[..|ops| - 1], ops[|ops| - 1];
      RunKeepsSuffix(disk, files, size, before);
      RunAppendable(disk, files, size, before);
      SuffixStep(Run(disk, files, size, before), files, size, op, Chain(disk, files) + Log(before));
      Regroup(Chain(disk, files), Log(before), Added(op));
    }
  }

  /** Files that all end in a newline go on doing so, and the counts go on accounting for every line. */
  lemma {:induction false} RunStaysClosed(disk: Disk, files: nat, size: nat, ops: seq<Op>)
    requires files > 0 && AllClosed(disk, files)
    ensures AllClosed(Run(disk, files, size, ops), files)
    ensures SeenChain(Run(disk, files, size, ops), files) == Chain(Run(disk, files, size, ops), files)
  {
    if ops != [] {
      var d, op := Run(disk, files, size, ops[..|ops| - 1]), ops[|ops| - 1];
      RunStaysClosed(disk, files, size, ops[..|ops| - 1]);
      if op.Write? {
        WrittenClosed(d, files, size, op.line);
      } else {
        OpenedChain(d, files);
      }
    }
    SeenIsChain(Run(disk, files, size, ops), files);
  }

  /** No write of the run evicts anything. */
  predicate Evictionless(disk: Disk, files: nat, size: nat, ops: seq<Op>)
    requires files > 0
  {
    ops == [] ||
    (Evictionless(disk, files, size, ops[..|ops| - 1]) &&
     match ops[|ops| - 1]
     case Write(line) => Evicted(Run(disk, files, size, ops[..|ops| - 1]), files, size, line) == []
     case Reopen => true)
  }

  /** Until something is evicted the chain is everything there was followed by everything written, whatever
      rotations and reopens happen in between; so are the lines that the counts account for. */
  lemma {:induction false} RunGrows(disk: Disk, files: nat, size: nat, ops: seq<Op>)
    requires files > 0 && Appendable(disk, size) && Evictionless(disk, files, size, ops)
    ensures Chain(Run(disk, files, size, ops), files) == Chain(disk, files) + Log(ops)
    ensures SeenChain(Run(disk, files, size, ops), files) == SeenChain(disk, files) + Log(ops)
  {
    if ops == [] {
      assert Chain(disk, files) + [] == Chain(disk, files) && SeenChain(disk, files) + [] == SeenChain(disk, files);
    } else {
      var before, op := ops[..|ops| - 1], ops[|ops| - 1];
      RunGrows(disk, files, size, before);
      RunAppendable(disk, files, size, before);
      GrowStep(Run(disk, files, size, before), files, size, op);
      Regroup(Chain(disk, files), Log(before), Added(op));
      Regroup(SeenChain(disk, files), Log(before), Added(op));
    }
  }

  lemma Regroup(a: seq<Bytes>, b: seq<Bytes>, c: seq<Bytes>)
    ensures a + b + c == a + (b + c)
  {
  }

  lemma GrowStep(d: Disk, files: nat, size: nat, op: Op)
    requires files > 0 && Appendable(d, size) && (op.Write? ==> Evicted(d, files, size, op.line) == [])
    ensures Chain(Step(d, files, size, op), files) == Chain(d, files) + Added(op)
    ensures SeenChain(Step(d, files, size, op), files) == SeenChain(d, files) + Added(op)
  {
    if op.Write? {
      WrittenChain(d, files, size, op.line);
      WrittenSeen(d, files, size, op.line);
      var kept, seen := Chain(d, Keeping(d, files, size, op.line)), SeenChain(d, Keeping(d, files, size, op.line));
      assert EvictedSeen(d, files, size, op.line) == [];
      assert [] + kept == kept && [] + seen == seen;
    } else {
      OpenedChain(d, files);
      assert Chain(d, files) + [] == Chain(d, files) && SeenChain(d, files) + [] == SeenChain(d, files);
    }
  }

  /** Every eviction-free run adds exactly what it writes if and only if no written text can join a line that
      lacks its newline. */
  lemma AppendableIff(disk: Disk, files: nat, size: nat)
    requires files > 0
    ensures Appendable(disk, size) <==>
            forall ops :: Evictionless(disk, files, size, ops) ==>
              Chain(Run(disk, files, size, ops), files) == Chain(disk, files) + Log(ops)
  {
    if Appendable(disk, size) {
      forall ops | Evictionless(disk, files, size, ops)
        ensures Chain(Run(disk, files, size, ops), files) == Chain(disk, files) + Log(ops)
      {
        RunGrows(disk, files, size, ops);
      }
    } else {
      JoinsLine(disk, files, size);
    }
  }

  /** An empty line written behind a line cut short ends that line, and is none of its own. */
  lemma JoinsLine(disk: Disk, files: nat, size: nat)
    requires files > 0 && !Appendable(disk, size)
    ensures var ops := [Write([])];
            Evictionless(disk, files, size, ops) &&
            Chain(Run(disk, files, size, ops), files) != Chain(disk, files) + Log(ops)
  {
    var ops := [Write([])];
    assert ops[..0] == [] && Run(disk, files, size, ops[..0]) == disk;
    var file, after := FileAt(disk, 0), Run(disk, files, size, ops);
    assert after == disk[0 := file + [] + [NL]];
    assert file + [] + [NL] == file + ([] + [NL]);
    AppendRepairs(file, []);
    OneLine([]);
    forall i | 0 < i < files ensures LinesAt(after)(i) == LinesAt(disk)(i) {
      assert FileAt(after, i) == FileAt(disk, i);
    }
    LinesShape(file);
    JoinMore(LinesAt(disk), LinesAt(after), files, 0);
    assert Log(ops) == Log(ops[..0]) + Added(Write([]));
  }

  lemma {:induction false} LongerRun(a: seq<Op>, b: seq<Op>, disk: Disk, files: nat, size: nat)
    requires a <= b && files > 0 && Evictionless(disk, files, size, b)
    ensures Log(a) <= Log(b) && Evictionless(disk, files, size, a)
    decreases |b|
  {
    if a != b {
      LongerRun(a, b[..|b| - 1], disk, files, size);
    }
  }

  /** The texts a run writes, with the newline behind them. */
  function Texts(ops: seq<Op>): set<Bytes> {
    set i | 0 <= i < |ops| && ops[i].Write? :: ops[i].line + [NL]
  }

  /** A file exceeds the size limit only by being one written text, a single line when it holds no newline. */
  predicate Bounded(file: Bytes, size: nat, texts: set<Bytes>) {
    |file| <= size || file in texts
  }

  predicate AllBounded(disk: Disk, files: nat, size: nat, texts: set<Bytes>) {
    forall i :: 0 <= i < files ==> Bounded(FileAt(disk, i), size, texts)
  }

  predicate SuffixesBelow(disk: Disk, n: nat) {
    forall i :: i in disk ==> i < n
  }

  lemma WrittenBounded(disk: Disk, files: nat, size: nat, line: Bytes, texts: set<Bytes>)
    requires files > 0 && AllBounded(disk, files, size, texts) && line + [NL] in texts
    ensures AllBounded(Written(disk, files, size, line), files, size, texts)
  {
    var after := Written(disk, files, size, line);
    assert [] + line + [NL] == line + [NL];
    forall i | 0 <= i < files ensures Bounded(FileAt(after, i), size, texts) {
      if i > 0 {
        assert FileAt(after, i) == if Overflows(disk, size, line) then FileAt(disk, i - 1) else FileAt(disk, i);
      }
    }
  }

  /** Over every run each file stays within the size limit, or is one written text, and no suffix beyond
      the chain appears. */
  lemma {:induction false} RunStaysBounded(disk: Disk, files: nat, size: nat, ops: seq<Op>, texts: set<Bytes>)
    requires files > 0 && AllBounded(disk, files, size, texts) && SuffixesBelow(disk, Top(files) + 1) && Texts(ops) <= texts
    ensures AllBounded(Run(disk, files, size, ops), files, size, texts)
    ensures SuffixesBelow(Run(disk, files, size, ops), Top(files) + 1)
  {
    if ops != [] {
      var before, op := ops[..|ops| - 1], ops[|ops| - 1];
      assert Texts(before) <= Texts(ops);
      RunStaysBounded(disk, files, size, before, texts);
      var d := Run(disk, files, size, before);
      if op.Write? {
        assert op.line + [NL] in Texts(ops);
        WrittenBounded(d, files, size, op.line, texts);
      } else {
        forall i | 0 <= i < files ensures Bounded(FileAt(Opened(d), i), size, texts) {
          assert FileAt(Opened(d), i) == FileAt(d, i);
        }
      }
    }
  }

  lemma {:induction false} FewFiles(keys: set<nat>, n: nat)
    requires forall i :: i in keys ==> i < n
    ensures |keys| <= n
  {
    if n > 0 {
      FewFiles(keys - {n - 1}, n - 1);
      assert n - 1 in keys ==> keys == (keys - {n - 1}) + {n - 1};
      assert n - 1 !in keys ==> keys == keys - {n - 1};
    }
  }

  lemma RunHasFewFiles(files: nat, size: nat, ops: seq<Op>)
    requires files >= 2
    ensures |Run(map[0 := []], files, size, ops).Keys| <= files
  {
    var blank: Disk := map[0 := []];
    forall i | 0 <= i < files ensures Bounded(FileAt(blank, i), size, Texts(ops)) {
      assert FileAt(blank, i) == [];
    }
    RunStaysBounded(blank, files, size, ops, Texts(ops));
    FewFiles(Run(blank, files, size, ops).Keys, files);
  }

  /** At most `files` files exist on every run of a fresh store if and only if `files` >= 2: a store of
      one file leaves a .1 behind that nothing reads or removes. */
  lemma FileBoundIff(files: nat, size: nat)
    requires files > 0
    ensures files >= 2 <==>
            forall ops: seq<Op> :: |Run(map[0 := []], files, size, ops).Keys| <= files
  {
    if files >= 2 {
      forall ops: seq<Op> ensures |Run(map[0 := []], files, size, ops).Keys| <= files {
        RunHasFewFiles(files, size, ops);
      }
    } else {
      OneFileLeavesTwo(size);
    }
  }

  lemma OneFileLeavesTwo(size: nat)
    ensures var ops := [Write(seq(size, i => 0))];
            |Run(map[0 := []], 1, size, ops).Keys| >= 2
  {
    var line: Bytes := seq(size, i => 0);
    var ops := [Write(line)];
    assert ops[..0] == [] && Run(map[0 := []], 1, size, ops[..0]) == map[0 := []];
    var d := Run(map[0 := []], 1, size, ops);
    assert d == Rotated(map[0 := []], 1)[0 := [] + line + [NL]];
    assert d.Keys == (d.Keys - {0, 1}) + {0, 1};
  }
}
