/** Lines of a log file and the backward tail reader of src/state.rs. */
module LogLines {
  import opened Prelude

  type Bytes = seq<u8>

  const NL: u8 := 10

  // ---- lines ----

  /** One more byte in front of the first line; a newline is a line of its own. */
  function Prepend(c: u8, lines: seq<Bytes>): seq<Bytes> {
    if c == NL || lines == [] then [[c]] + lines else [[c] + lines[0]] + lines[1..]
  }

  /** The lines of a file, each with its newline; a last line without one still counts. */
  function Lines(s: Bytes): seq<Bytes> {
    if s == [] then [] else Prepend(s[0], Lines(s[1..]))
  }

  function Flatten<T>(lines: seq<seq<T>>): seq<T> {
    if lines == [] then [] else lines[0] + Flatten(lines[1..])
  }

  /** Empty, or ending in a newline. */
  predicate Closed(s: Bytes) {
    s == [] || s[|s| - 1] == NL
  }

  lemma {:induction false} FlattenLines(s: Bytes)
    ensures Flatten(Lines(s)) == s
  {
    if s != [] {
      FlattenLines(s[1..]);
      FlattenPrepend(s[0], Lines(s[1..]));
    }
  }

  lemma FlattenPrepend(c: u8, lines: seq<Bytes>)
    ensures Flatten(Prepend(c, lines)) == [c] + Flatten(lines)
  {
    assert Prepend(c, lines)[1..] == if c == NL || lines == [] then lines else lines[1..];
  }

  /** A line: not empty, and no newline before its last byte. */
  predicate IsLine(line: Bytes) {
    line != [] && forall i :: 0 <= i < |line| - 1 ==> line[i] != NL
  }

  /** Lines are lines, and only the last one may lack its newline. */
  lemma {:induction false} LinesShape(s: Bytes)
    ensures s != [] ==> Lines(s) != []
    ensures forall i :: 0 <= i < |Lines(s)| ==> IsLine(Lines(s)[i])
    ensures forall i :: 0 <= i < |Lines(s)| ==> Closed(Lines(s)[i]) || (i == |Lines(s)| - 1 && !Closed(s))
  {
    if s != [] {
      LinesShape(s[1..]);
      var rest := Lines(s[1..]);
      if s[0] == NL || rest == [] {
        assert forall i :: 0 < i <= |rest| ==> Lines(s)[i] == rest[i - 1];
      } else {
        assert forall i :: 0 < i < |rest| ==> Lines(s)[i] == rest[i];
      }
    }
  }

  lemma PrependConcat(c: u8, x: seq<Bytes>, y: seq<Bytes>)
    requires c == NL || x != []
    ensures Prepend(c, x + y) == Prepend(c, x) + y
  {
    if c != NL {
      assert (x + y)[0] == x[0] && (x + y)[1..] == x[1..] + y;
    }
  }

  /** Splitting after a newline splits the lines. */
  lemma {:induction false} LinesConcat(a: Bytes, b: Bytes)
    requires Closed(a)
    ensures Lines(a + b) == Lines(a) + Lines(b)
  {
    if a == [] {
      assert a + b == b;
    } else {
      assert (a + b)[0] == a[0] && (a + b)[1..] == a[1..] + b;
      LinesConcat(a[1..], b);
      LinesShape(a[1..]);
      PrependConcat(a[0], Lines(a[1..]), Lines(b));
    }
  }

  lemma {:induction false} FlattenConcat<T>(a: seq<seq<T>>, b: seq<seq<T>>)
    ensures Flatten(a + b) == Flatten(a) + Flatten(b)
  {
    if a == [] {
      assert a + b == b;
    } else {
      FlattenConcat(a[1..], b);
      assert (a + b)[0] == a[0] && (a + b)[1..] == a[1..] + b;
    }
  }

  /** `count_lines`: the newlines of a file. */
  function Newlines(s: Bytes): nat {
    if s == [] then 0 else (if s[0] == NL then 1 else 0) + Newlines(s[1..])
  }

  lemma {:induction false} NewlinesConcat(a: Bytes, b: Bytes)
    ensures Newlines(a + b) == Newlines(a) + Newlines(b)
  {
    if a == [] {
      assert a + b == b;
    } else {
      NewlinesConcat(a[1..], b);
      assert (a + b)[1..] == a[1..] + b;
    }
  }

  /** A missing final newline is one more line. */
  function Partial(s: Bytes): nat {
    if Closed(s) then 0 else 1
  }

  /** How many lines a file has, counted by newlines. */
  function LineCount(s: Bytes): nat {
    Newlines(s) + Partial(s)
  }

  lemma {:induction false} LinesCount(s: Bytes)
    ensures |Lines(s)| == LineCount(s)
  {
    if s != [] {
      LinesCount(s[1..]);
    }
  }

  /** Counting newlines counts the lines of exactly the files that end in one: a last line without its
      newline, which the tail reader does count, is missed. */
  lemma NewlinesCountIff(s: Bytes)
    ensures Newlines(s) == |Lines(s)| <==> Closed(s)
  {
    LinesCount(s);
  }

  /** The lines that the newlines of a file account for: all of them, or all but the first when the last one
      lacks its newline. */
  function Seen(s: Bytes): (r: seq<Bytes>)
    ensures |r| == Newlines(s) && (Closed(s) ==> r == Lines(s))
  {
    LinesCount(s);
    Lines(s)[Partial(s)..]
  }

  /** count_lines reads the file in chunks and counts newlines. */
  method CountLines(s: Bytes, chunk: nat) returns (n: nat)
    requires chunk > 0
    ensures n == Newlines(s)
  {
    n := 0;
    var at := 0;
    while at < |s|
      invariant at <= |s| && n == Newlines(s[..at])
    {
      var k := Least(chunk, |s| - at);
      for j := 0 to k
        invariant n == Newlines(s[..at + j])
      {
        assert s[..at + j + 1] == s[..at + j] + [s[at + j]];
        NewlinesConcat(s[..at + j], [s[at + j]]);
        if s[at + j] == NL {
          n := n + 1;
        }
      }
      at := at + k;
    }
    assert s[..|s|] == s;
  }

  lemma {:induction false} OneLine(line: Bytes)
    requires NL !in line
    ensures Lines(line + [NL]) == [line + [NL]]
  {
    if line != [] {
      assert (line + [NL])[0] == line[0] && (line + [NL])[1..] == line[1..] + [NL];
      OneLine(line[1..]);
      assert [line[0]] + (line[1..] + [NL]) == line + [NL];
    } else {
      assert ([] + [NL])[1..] == [];
      assert Lines([NL][1..]) == [];
      assert [] + [NL] == [NL];
    }
  }

  lemma {:induction false} OneOpenLine(line: Bytes)
    requires NL !in line && line != []
    ensures Lines(line) == [line]
  {
    if |line| > 1 {
      OneOpenLine(line[1..]);
      assert [line[0]] + line[1..] == line;
    } else {
      assert line[1..] == [] && [line[0]] == line;
    }
  }

  /** A text's lines behind a line that lacks its newline: the first of them completes it. */
  function Joined(last: Bytes, more: seq<Bytes>): seq<Bytes>
    requires more != []
  {
    [last + more[0]] + more[1..]
  }

  /** The lines of a file after a text has been written behind an open or a complete last line. */
  function Extended(lines: seq<Bytes>, open: bool, more: seq<Bytes>): seq<Bytes>
    requires more != []
  {
    if open && lines != [] then lines[..|lines| - 1] + Joined(lines[|lines| - 1], more) else lines + more
  }

  lemma ExtendedFront(front: seq<Bytes>, last: Bytes, more: seq<Bytes>)
    requires more != []
    ensures Extended(front + [last], true, more) == front + Joined(last, more)
  {
    assert (front + [last])[..|front|] == front;
  }

  lemma PrependJoined(c: u8, last: Bytes, more: seq<Bytes>)
    requires c != NL && more != []
    ensures Prepend(c, Joined(last, more)) == Joined([c] + last, more)
  {
    assert [c] + (last + more[0]) == ([c] + last) + more[0];
    assert Joined(last, more)[1..] == more[1..];
  }

  lemma PrependExtended(c: u8, lines: seq<Bytes>, open: bool, more: seq<Bytes>)
    requires lines != [] && more != []
    ensures Prepend(c, Extended(lines, open, more)) == Extended(Prepend(c, lines), open, more)
  {
    if open {
      var front, last := lines[..|lines| - 1], lines[|lines| - 1];
      assert lines == front + [last];
      if c == NL || front != [] {
        PrependConcat(c, front, [last]);
        PrependConcat(c, front, Joined(last, more));
        ExtendedFront(Prepend(c, front), last, more);
      } else {
        PrependJoined(c, last, more);
        ExtendedFront([], [c] + last, more);
        assert Prepend(c, lines) == [] + [[c] + last];
      }
    } else {
      PrependConcat(c, lines, more);
    }
  }

  lemma TextHasLines(line: Bytes)
    ensures Lines(line + [NL]) != [] && Closed(line + [NL])
  {
    LinesShape(line + [NL]);
  }

  lemma AppendToByte(c: u8, text: Bytes)
    requires text != [] && Lines(text) != []
    ensures Prepend(c, Lines(text)) == Extended(Lines([c]), !Closed([c]), Lines(text))
  {
    assert [c][1..] == [];
    assert Lines([c]) == [[c]];
  }

  lemma {:induction false} LinesExtended(file: Bytes, text: Bytes)
    requires text != [] && Lines(text) != []
    ensures Lines(file + text) == Extended(Lines(file), !Closed(file), Lines(text))
  {
    if file == [] {
      assert file + text == text;
    } else {
      var rest := file[1..];
      assert (file + text)[0] == file[0] && (file + text)[1..] == rest + text;
      if rest == [] {
        assert file == [file[0]] && rest + text == text;
        AppendToByte(file[0], text);
      } else {
        LinesExtended(rest, text);
        LinesShape(rest);
        PrependExtended(file[0], Lines(rest), !Closed(rest), Lines(text));
      }
    }
  }

  /** A written text joins a last line that lacks its newline, and the file is complete again. */
  lemma AppendRepairs(file: Bytes, line: Bytes)
    ensures Lines(line + [NL]) != []
    ensures Lines(file + (line + [NL])) == Extended(Lines(file), !Closed(file), Lines(line + [NL]))
    ensures Closed(file + (line + [NL])) && Seen(file + (line + [NL])) == Lines(file + (line + [NL]))
  {
    var text := line + [NL];
    TextHasLines(line);
    assert (file + text)[|file + text| - 1] == NL;
    LinesExtended(file, text);
  }

  // ---- the tail window ----

  /** The lines at positions skip+1 .. skip+take from the end, clamped to the start of the list. */
  function FromEnd(lines: seq<Bytes>, skip: nat, take: nat): seq<Bytes> {
    lines[|lines| - Least(|lines|, skip + take)..|lines| - Least(|lines|, skip)]
  }

  /** Their bytes. */
  function Window(s: Bytes, skip: nat, take: nat): Bytes {
    Flatten(FromEnd(Lines(s), skip, take))
  }

  /** What read_tail returns. When `skip` reaches the start of a nonempty file no end boundary is ever
      found, and the window runs from the start to the end of the file. */
  function Tail(s: Bytes, skip: nat, take: nat): Bytes {
    if skip == 0 || skip < LineCount(s) then Window(s, skip, take) else s
  }

  /** read_tail returns the promised lines exactly when the skipped ones leave some line, or there was
      nothing to skip. */
  lemma TailIsWindow(s: Bytes, skip: nat, take: nat)
    ensures Tail(s, skip, take) == Window(s, skip, take) <==> skip == 0 || skip < LineCount(s) || s == []
  {
    LinesCount(s);
    var n := |Lines(s)|;
    if skip > 0 && skip >= n {
      assert FromEnd(Lines(s), skip, take) == [];
    }
  }

  /** `o` starts the k-th line from the end. */
  predicate StartsFromEnd(s: Bytes, o: nat, k: nat)
    requires o <= |s|
  {
    Closed(s[..o]) && LineCount(s[o..]) == k
  }

  lemma LinesBetween(s: Bytes, o1: nat, o2: nat)
    requires o1 <= o2 <= |s| && (Closed(s[..o2]) || o2 == |s|)
    ensures Lines(s[o1..]) == Lines(s[o1..o2]) + Lines(s[o2..])
  {
    assert s[o1..] == s[o1..o2] + s[o2..];
    if o2 < |s| {
      assert o1 < o2 ==> s[o1..o2][o2 - o1 - 1] == s[..o2][o2 - 1];
      LinesConcat(s[o1..o2], s[o2..]);
    } else {
      assert s[o2..] == [] && s[o1..o2] == s[o1..];
    }
  }

  lemma PickMiddle(all: seq<Bytes>, front: seq<Bytes>, middle: seq<Bytes>, back: seq<Bytes>, skip: nat, need: nat)
    requires all == front + (middle + back) && |back| == skip && |middle + back| == Least(|all|, need)
    ensures need >= skip ==> FromEnd(all, skip, need - skip) == middle
  {
  }

  lemma SliceIsWindow(s: Bytes, o1: nat, o2: nat, skip: nat, take: nat)
    requires o1 <= o2 <= |s| && skip <= LineCount(s)
    requires StartsFromEnd(s, o1, Least(LineCount(s), skip + take))
    requires StartsFromEnd(s, o2, skip) || (o2 == |s| && skip == 0)
    ensures s[o1..o2] == Window(s, skip, take)
  {
    LinesBetween(s, 0, o1);
    LinesBetween(s, o1, o2);
    assert s[0..] == s && s[0..o1] == s[..o1];
    LinesCount(s);
    LinesCount(s[o1..]);
    LinesCount(s[o2..]);
    PickMiddle(Lines(s), Lines(s[0..o1]), Lines(s[o1..o2]), Lines(s[o2..]), skip, skip + take);
    FlattenLines(s[o1..o2]);
  }

  /** After the newline at index `i`, as many lines remain as boundaries were passed behind it. */
  lemma BoundaryAt(s: Bytes, i: nat)
    requires i < |s| && s[i] == NL
    ensures StartsFromEnd(s, i + 1, Partial(s) + Newlines(s[i + 1..]))
    ensures Newlines(s[i..]) == 1 + Newlines(s[i + 1..])
  {
    assert s[i..][1..] == s[i + 1..];
    assert i + 1 < |s| ==> s[i + 1..][|s| - i - 2] == s[|s| - 1];
  }

  lemma StepBack(s: Bytes, i: nat)
    requires i < |s| && s[i] != NL
    ensures Newlines(s[i..]) == Newlines(s[i + 1..])
  {
    assert s[i..][1..] == s[i + 1..];
  }

  const U64: nat := 0x1_0000_0000_0000_0000

  /** What the backward scan knows with the bytes from `at` on behind it. */
  ghost predicate Scanned(s: Bytes, skip: nat, at: nat, passed: nat, o2: nat, setO2: bool) {
    at <= |s| && passed == Partial(s) + Newlines(s[at..]) && o2 <= |s| &&
    (setO2 <==> skip == 0 || passed > skip) &&
    (if setO2 && skip > 0 then at < o2 && StartsFromEnd(s, o2, skip) else o2 == |s|)
  }

  lemma ScanStep(s: Bytes, skip: nat, i: nat, passed: nat, o2: nat, setO2: bool)
    requires i < |s| && Scanned(s, skip, i + 1, passed, o2, setO2)
    ensures var ends := s[i] == NL && !setO2 && passed == skip;
            Scanned(s, skip, i, if s[i] == NL then passed + 1 else passed, if ends then i + 1 else o2, setO2 || ends)
    ensures s[i] == NL ==> StartsFromEnd(s, i + 1, passed)
  {
    if s[i] == NL {
      BoundaryAt(s, i);
    } else {
      StepBack(s, i);
    }
  }

  /** The scan stopped at the start of the first needed line. */
  lemma ScanFound(s: Bytes, skip: nat, take: nat, at: nat, passed: nat, o2: nat, setO2: bool)
    requires at < |s| && Scanned(s, skip, at, passed, o2, setO2)
    requires passed == skip + take + 1 && StartsFromEnd(s, at + 1, skip + take)
    ensures at + 1 <= o2 && s[at + 1..o2] == Tail(s, skip, take)
  {
    SuffixCount(s, at + 1);
    SliceIsWindow(s, at + 1, o2, skip, take);
  }

  lemma SuffixCount(s: Bytes, o: nat)
    requires o <= |s| && Closed(s[..o])
    ensures LineCount(s[o..]) <= LineCount(s)
    ensures o > 0 ==> LineCount(s[o..]) < LineCount(s)
  {
    assert s == s[..o] + s[o..];
    if o > 0 {
      assert s[..o] == s[..o - 1] + [NL];
      NewlinesConcat(s[..o - 1], [NL]);
    }
    NewlinesConcat(s[..o], s[o..]);
    assert s[o..] != [] ==> s[o..][|s| - o - 1] == s[|s| - 1];
  }

  /** The scan ran out of bytes. */
  lemma ScanExhausted(s: Bytes, skip: nat, take: nat, passed: nat, o2: nat, setO2: bool)
    requires Scanned(s, skip, 0, passed, o2, setO2) && passed <= skip + take
    ensures s[0..o2] == Tail(s, skip, take)
  {
    assert s[0..] == s && s[..0] == [] && s[0..|s|] == s;
    if setO2 {
      SliceIsWindow(s, 0, o2, skip, take);
    }
  }

  lemma NothingTaken(s: Bytes)
    ensures Tail(s, 0, 0) == []
  {
  }

  /** One chunk of the backward scan, `bytes[at..pos]`: boundaries are counted until one more than
      `need` has been passed. */
  method ScanChunk(s: Bytes, skip: nat, need: nat, at: nat, pos: nat, passed: nat, o2: nat, setO2: bool)
    returns (found: bool, i: nat, passed': nat, o2': nat, setO2': bool)
    requires at <= pos && Scanned(s, skip, pos, passed, o2, setO2) && passed <= need
    ensures Scanned(s, skip, i, passed', o2', setO2') && (!found ==> i == at && passed' <= need)
    ensures found ==> i < |s| && passed' == need + 1 && StartsFromEnd(s, i + 1, need)
  {
    i, passed', o2', setO2' := pos, passed, o2, setO2;
    while i > at
      invariant at <= i <= pos
      invariant Scanned(s, skip, i, passed', o2', setO2') && passed' <= need
    {
      i := i - 1;
      ScanStep(s, skip, i, passed', o2', setO2');
      if s[i] == NL {
        passed' := passed' + 1;
        if !setO2' && passed' == skip + 1 {
          o2', setO2' := i + 1, true;
        }
        if passed' == need + 1 {
          return true, i, passed', o2', setO2';
        }
      }
    }
    found := false;
  }

  lemma ScanStart(s: Bytes, skip: nat)
    ensures Scanned(s, skip, |s|, Partial(s), |s|, skip == 0)
  {
    assert s[|s|..] == [];
  }

  /** The whole backward scan, in bounded chunks. */
  method ScanAll(s: Bytes, skip: nat, need: nat, chunk: nat)
    returns (found: bool, at: nat, passed: nat, o2: nat, setO2: bool)
    requires chunk > 0 && need > 0
    ensures Scanned(s, skip, at, passed, o2, setO2) && (!found ==> at == 0 && passed <= need)
    ensures found ==> at < |s| && passed == need + 1 && StartsFromEnd(s, at + 1, need)
  {
    ScanStart(s, skip);
    at, found, o2, setO2 := |s|, false, |s|, skip == 0;
    passed := if at > 0 && s[at - 1] != NL then 1 else 0;
    while at > 0 && !found
      invariant Scanned(s, skip, at, passed, o2, setO2) && (!found ==> passed <= need)
      invariant found ==> at < |s| && passed == need + 1 && StartsFromEnd(s, at + 1, need)
      decreases !found, at
    {
      found, at, passed, o2, setO2 := ScanChunk(s, skip, need, at - Least(at, chunk), at, passed, o2, setO2);
    }
  }

  /** The byte range of the window. */
  method Locate(s: Bytes, skip: nat, take: nat, chunk: nat) returns (o1: nat, o2: nat)
    requires chunk > 0 && skip + take > 0
    ensures o2 <= |s| && if o1 < o2 then s[o1..o2] == Tail(s, skip, take) else Tail(s, skip, take) == []
  {
    var found, at, passed, end, setO2 := ScanAll(s, skip, skip + take, chunk);
    o2 := end;
    if found {
      ScanFound(s, skip, take, at, passed, o2, setO2);
      o1 := at + 1;
    } else {
      ScanExhausted(s, skip, take, passed, o2, setO2);
      o1 := 0;
    }
  }

  /** read_tail: the byte range between two boundaries. The result does not depend on where the chunks
      of the backward scan fall. */
  method ReadTail(s: Bytes, skip: nat, take: nat, chunk: nat) returns (r: Option<Bytes>)
    requires chunk > 0
    ensures r == if skip + take >= U64 then None else Some(Tail(s, skip, take))
  {
    if skip + take >= U64 {
      return None;
    }
    if skip + take == 0 {
      NothingTaken(s);
      return Some([]);
    }
    var o1, o2 := Locate(s, skip, take, chunk);
    if o1 >= o2 {
      return Some([]);
    }
    return Some(s[o1..o2]);
  }
}
