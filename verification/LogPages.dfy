/** What a page of log entries is, as a function of the retained lines, and the older-pages walk. */
module LogPages {
  import opened Prelude
  import opened LogLines

  const CR: u8 := 13

  datatype LogEntry = LogEntry(number: nat, raw: Bytes)

  /** A stored line as the dashboard gets it: `str::lines` drops the newline and one carriage return
      before it, the reader drops one more trailing carriage return. */
  function Clean(line: Bytes): Bytes {
    var text := if line != [] && line[|line| - 1] == NL then DropCr(line[..|line| - 1]) else line;
    DropCr(text)
  }

  function DropCr(s: Bytes): Bytes {
    if s != [] && s[|s| - 1] == CR then s[..|s| - 1] else s
  }

  /** The retained lines as entries: the number is the position in the retained store. */
  function Entries(lines: seq<Bytes>): (r: seq<LogEntry>)
    ensures |r| == |lines| && forall i {:trigger r[i]} :: 0 <= i < |r| ==> r[i] == LogEntry(i, Clean(lines[i]))
  {
    seq(|lines|, i requires 0 <= i < |lines| => LogEntry(i, Clean(lines[i])))
  }

  /** The end of a page: the entries numbered below `before`. */
  function PageEnd(n: nat, before: Option<nat>): (hi: nat)
    ensures hi <= n
  {
    if before.Some? then Least(before.value, n) else n
  }

  function PageStart(hi: nat, limit: nat): (lo: nat)
    ensures lo <= hi
  {
    if limit == 0 then 0 else hi - Least(hi, limit)
  }

  /** `read(limit, before)`: the newest `limit` entries below `before`, oldest first. */
  function Page(lines: seq<Bytes>, limit: nat, before: Option<nat>): seq<LogEntry> {
    var hi := PageEnd(|lines|, before);
    Entries(lines)[PageStart(hi, limit)..hi]
  }

  /** The entries numbered from `lo` on. */
  predicate Numbered(p: seq<LogEntry>, lines: seq<Bytes>, lo: nat)
    requires lo + |p| <= |lines|
  {
    forall i :: 0 <= i < |p| ==> p[i] == LogEntry(lo + i, Clean(lines[lo + i]))
  }

  lemma SliceNumbered(lines: seq<Bytes>, lo: nat, hi: nat)
    requires lo <= hi <= |lines|
    ensures |Entries(lines)[lo..hi]| == hi - lo && Numbered(Entries(lines)[lo..hi], lines, lo)
  {
    var p := Entries(lines)[lo..hi];
    forall i | 0 <= i < |p| ensures p[i] == LogEntry(lo + i, Clean(lines[lo + i])) {
      assert p[i] == Entries(lines)[lo + i];
    }
  }

  /** A page holds the newest entries below `before`, all of them for limit 0 and at most `limit` otherwise, with
      contiguous numbers. */
  lemma PageIsNewest(lines: seq<Bytes>, limit: nat, before: Option<nat>)
    ensures var below := if before.Some? && before.value < |lines| then before.value else |lines|;
            var p := Page(lines, limit, before);
            |p| == (if limit == 0 || limit > below then below else limit) && Numbered(p, lines, below - |p|)
  {
    EndIs(|lines|, before);
    PageBelow(lines, limit, before, PageEnd(|lines|, before));
  }

  lemma PageBelow(lines: seq<Bytes>, limit: nat, before: Option<nat>, below: nat)
    requires below == PageEnd(|lines|, before)
    ensures var p := Page(lines, limit, before);
            |p| == (if limit == 0 || limit > below then below else limit) && Numbered(p, lines, below - |p|)
  {
    StartIs(below, limit);
    SliceNumbered(lines, PageStart(below, limit), below);
  }

  lemma EndIs(n: nat, before: Option<nat>)
    ensures PageEnd(n, before) == if before.Some? && before.value < n then before.value else n
  {
  }

  lemma StartIs(hi: nat, limit: nat)
    ensures PageStart(hi, limit) == hi - if limit == 0 || limit > hi then hi else limit
  {
  }

  function Returns(n: nat): (r: Bytes)
    ensures |r| == n && forall i :: 0 <= i < n ==> r[i] == CR
  {
    seq(n, i => CR)
  }

  /** Of the carriage returns at the end of a line the reader drops two before a newline, one where the newline is
      missing, and no other byte. */
  lemma CleanDrops(text: Bytes, n: nat)
    requires text == [] || (text[|text| - 1] != CR && text[|text| - 1] != NL)
    ensures Clean(text + Returns(n) + [NL]) == text + Returns(if n < 2 then 0 else n - 2)
    ensures Clean(text + Returns(n)) == text + Returns(if n < 1 then 0 else n - 1)
  {
    var line := text + Returns(n);
    assert (line + [NL])[..|line|] == line;
    DropReturn(text, n);
    if n > 0 {
      DropReturn(text, n - 1);
    }
  }

  lemma DropReturn(text: Bytes, n: nat)
    requires text == [] || text[|text| - 1] != CR
    ensures DropCr(text + Returns(n)) == text + Returns(if n == 0 then 0 else n - 1)
  {
    if n == 0 {
      assert text + Returns(0) == text;
    } else {
      assert (text + Returns(n))[..|text| + n - 1] == text + Returns(n - 1);
    }
  }

  /** A written line is read back as it was, unless it ends in a carriage return: that is taken for part of a line
      break. */
  lemma ReadsBackIff(line: Bytes)
    ensures Clean(line + [NL]) == line <==> line == [] || line[|line| - 1] != CR
  {
    assert (line + [NL])[..|line|] == line;
  }

  /** The dashboard's auto-pager: from the newest page backwards, before = the oldest number seen, until
      an empty page or entry 0. `stores` is what is retained when each page is read. */
  function WalkBack(stores: seq<seq<Bytes>>, limit: nat, before: Option<nat>): seq<LogEntry> {
    if stores == [] then []
    else
      var page := Page(stores[0], limit, before);
      if page == [] || page[0].number == 0 then page
      else WalkBack(stores[1..], limit, Some(page[0].number)) + page
  }

  /** Between two pages lines may be appended and files rotated, but nothing is evicted. */
  predicate Growing(stores: seq<seq<Bytes>>) {
    forall i :: 0 <= i < |stores| - 1 ==> stores[i] <= stores[i + 1]
  }

  lemma EntriesPrefix(a: seq<Bytes>, b: seq<Bytes>, n: nat)
    requires a <= b && n <= |a|
    ensures Entries(a)[..n] == Entries(b)[..n]
  {
  }

  lemma OnePageLess(n: nat, limit: nat, top: nat)
    requires 0 < limit < top <= n * limit
    ensures n > 1 && (n - 1) * limit >= top - limit
  {
  }

  lemma {:induction false} WalkBackFrom(stores: seq<seq<Bytes>>, limit: nat, top: nat)
    requires Growing(stores) && limit > 0 && stores != [] && 0 < top <= |stores[0]| && |stores| * limit >= top
    ensures WalkBack(stores, limit, Some(top)) == Entries(stores[0])[..top]
  {
    var page, lo := Page(stores[0], limit, Some(top)), PageStart(top, limit);
    assert page == Entries(stores[0])[lo..top];
    if lo > 0 {
      OnePageLess(|stores|, limit, top);
      assert stores[0] <= stores[1];
      WalkBackFrom(stores[1..], limit, lo);
      EntriesPrefix(stores[0], stores[1], lo);
    }
  }

  /** The older-pages walk visits every entry retained at its start exactly once and in order, whatever
      is appended meanwhile, as soon as it reads enough pages. */
  lemma WalkBackIsWholeLog(stores: seq<seq<Bytes>>, limit: nat)
    requires Growing(stores) && limit > 0 && stores != [] && |stores| * limit >= |stores[0]|
    ensures WalkBack(stores, limit, None) == Entries(stores[0])
  {
    var n := |stores[0]|;
    assert Page(stores[0], limit, None) == Page(stores[0], limit, Some(n));
    if n > 0 {
      WalkBackFrom(stores, limit, n);
    }
    assert Entries(stores[0])[..n] == Entries(stores[0]);
  }

  /** Evicting `c` lines renumbers every survivor by exactly `c`: numbers are positions, and stay put only
      between evictions. */
  lemma EvictionRenumbers(lines: seq<Bytes>, c: nat, i: nat)
    requires c <= i < |lines|
    ensures Entries(lines[c..])[i - c] == Entries(lines)[i].(number := i - c)
    ensures Entries(lines[c..])[i - c] == Entries(lines)[i] <==> c == 0
  {
  }
}
