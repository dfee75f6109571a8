/** What the keyset condition selects: exactly the documents after the boundary row. */
module KeysetMeaning {
  import opened Prelude
  import opened BsonValues
  import opened Mongo
  import opened Keyset

  /** A row of sort values that are compared by value. */
  predicate Plain(row: Row) {
    forall k :: 0 <= k < |row| ==> !Odd(row[k])
  }

  predicate ReadsTrueRow(row: Row) {
    forall k :: 0 <= k < |row| ==> ReadsTrue(row[k])
  }

  // ---- the deciding column ----

  /** The rows tie before column `k`. */
  predicate TiesBefore(m: Server, a: Row, b: Row, k: nat)
    requires k <= |a| == |b|
  {
    forall j :: 0 <= j < k ==> Tie(m, a[j], b[j])
  }

  predicate DecidesAt(m: Server, sort: Sort, a: Row, b: Row, k: nat)
    requires k < |sort| == |a| == |b|
  {
    TiesBefore(m, a, b, k) && After(m, sort[k].dir, a[k], b[k])
  }

  lemma {:induction false} AfterHasDecider(m: Server, sort: Sort, a: Row, b: Row)
    requires |sort| == |a| == |b|
    ensures RowAfter(m, sort, a, b) <==> exists k :: 0 <= k < |sort| && DecidesAt(m, sort, a, b, k)
  {
    if sort != [] {
      var s, x, y := sort[1..], a[1..], b[1..];
      AfterHasDecider(m, s, x, y);
      if After(m, sort[0].dir, a[0], b[0]) {
        assert DecidesAt(m, sort, a, b, 0);
      } else if RowAfter(m, sort, a, b) {
        var k :| 0 <= k < |s| && DecidesAt(m, s, x, y, k);
        forall j | 0 <= j < k + 1 ensures Tie(m, a[j], b[j]) {
          if j > 0 { assert Tie(m, x[j - 1], y[j - 1]); }
        }
        assert DecidesAt(m, sort, a, b, k + 1);
      } else if k :| 0 <= k < |sort| && DecidesAt(m, sort, a, b, k) {
        assert k > 0 && Tie(m, a[0], b[0]);
        forall j | 0 <= j < k - 1 ensures Tie(m, x[j], y[j]) {
          assert Tie(m, a[j + 1], b[j + 1]);
        }
        assert DecidesAt(m, s, x, y, k - 1);
      }
    }
  }

  // ---- what the arms match ----

  lemma {:induction false} PrefixIsPinned(sort: Sort, last: Row, k: nat)
    requires k <= |sort| == |last| && Distinct(sort)
    ensures |Prefix(sort, last, k)| == k
    ensures forall j :: 0 <= j < k ==> Prefix(sort, last, k)[j] == (sort[j].field, Eq(last[j]))
  {
    if k > 0 {
      var p := Prefix(sort, last, k - 1);
      PrefixIsPinned(sort, last, k - 1);
      KeyIndexAbsent(p, sort[k - 1].field);
    }
  }

  lemma ArmMatches(m: Server, sort: Sort, last: Row, k: nat, c: Cond, d: Document)
    requires k < |sort| == |last| && Distinct(sort)
    requires Plain(last) && Plain(RowOf(sort, d))
    ensures Matches(m, Arm(sort, last, k, c), d) <==>
            TiesBefore(m, RowOf(sort, d), last, k) && Holds(m, c, Get(d, sort[k].field))
  {
    var part := Prefix(sort, last, k);
    PrefixIsPinned(sort, last, k);
    KeyIndexAbsent(part, sort[k].field);
    var conds := part + [(sort[k].field, c)];
    assert Arm(sort, last, k, c) == Fields(conds);
    forall j | 0 <= j < k ensures Holds(m, conds[j].1, Get(d, conds[j].0)) <==> Tie(m, RowOf(sort, d)[j], last[j]) {
      assert conds[j] == (sort[j].field, Eq(last[j]));
      assert !Odd(RowOf(sort, d)[j]) && !Odd(last[j]);
    }
    assert conds[k] == (sort[k].field, c);
  }

  /** The conditions of column `k` select document `d`. */
  predicate SelectsAt(m: Server, sort: Sort, last: Row, conds: seq<Cond>, d: Document, k: nat)
    requires k < |sort| == |last|
  {
    TiesBefore(m, RowOf(sort, d), last, k) && Selects(m, conds, Get(d, sort[k].field))
  }

  predicate AnyMatches(m: Server, arms: seq<Filter>, d: Document) {
    exists i :: 0 <= i < |arms| && Matches(m, arms[i], d)
  }

  lemma ColumnArmsMatch(m: Server, sort: Sort, last: Row, k: nat, conds: seq<Cond>, d: Document)
    requires k < |sort| == |last| && Distinct(sort)
    requires Plain(last) && Plain(RowOf(sort, d))
    ensures AnyMatches(m, ColumnArms(sort, last, k, conds), d) <==>
            TiesBefore(m, RowOf(sort, d), last, k) && Selects(m, conds, Get(d, sort[k].field))
  {
    var arms := ColumnArms(sort, last, k, conds);
    forall i | 0 <= i < |conds| ensures Matches(m, arms[i], d) <==>
        TiesBefore(m, RowOf(sort, d), last, k) && Holds(m, conds[i], Get(d, sort[k].field)) {
      ArmMatches(m, sort, last, k, conds[i], d);
    }
  }

  predicate AnySelects(m: Server, sort: Sort, last: Row, columns: seq<seq<Cond>>, n: nat, d: Document)
    requires n <= |sort| == |last| == |columns|
  {
    exists k :: 0 <= k < n && SelectsAt(m, sort, last, columns[k], d, k)
  }

  lemma AnySelectsStep(m: Server, sort: Sort, last: Row, columns: seq<seq<Cond>>, n: nat, d: Document)
    requires 0 < n <= |sort| == |last| == |columns|
    ensures AnySelects(m, sort, last, columns, n, d) <==>
            AnySelects(m, sort, last, columns, n - 1, d) || SelectsAt(m, sort, last, columns[n - 1], d, n - 1)
  {
  }

  lemma ArmsMatchStep(m: Server, sort: Sort, last: Row, columns: seq<seq<Cond>>, n: nat, d: Document)
    requires 0 < n <= |sort| == |last| == |columns| && Distinct(sort)
    requires Plain(last) && Plain(RowOf(sort, d))
    ensures AnyMatches(m, ArmsOf(sort, last, columns, n), d) <==>
            AnyMatches(m, ArmsOf(sort, last, columns, n - 1), d) || SelectsAt(m, sort, last, columns[n - 1], d, n - 1)
  {
    ColumnArmsMatch(m, sort, last, n - 1, columns[n - 1], d);
    AnyMatchesConcat(m, ArmsOf(sort, last, columns, n - 1), ColumnArms(sort, last, n - 1, columns[n - 1]), d);
  }

  lemma {:induction false} ArmsMatch(m: Server, sort: Sort, last: Row, columns: seq<seq<Cond>>, n: nat, d: Document)
    requires n <= |sort| == |last| == |columns| && Distinct(sort)
    requires Plain(last) && Plain(RowOf(sort, d))
    ensures AnyMatches(m, ArmsOf(sort, last, columns, n), d) <==> AnySelects(m, sort, last, columns, n, d)
  {
    if n > 0 {
      ArmsMatch(m, sort, last, columns, n - 1, d);
      ArmsMatchStep(m, sort, last, columns, n, d);
      AnySelectsStep(m, sort, last, columns, n, d);
    }
  }

  lemma AnyMatchesConcat(m: Server, a: seq<Filter>, b: seq<Filter>, d: Document)
    ensures AnyMatches(m, a + b, d) <==> AnyMatches(m, a, d) || AnyMatches(m, b, d)
  {
    if i :| 0 <= i < |a| && Matches(m, a[i], d) { assert (a + b)[i] == a[i]; }
    if i :| 0 <= i < |b| && Matches(m, b[i], d) { assert (a + b)[|a| + i] == b[i]; }
  }

  lemma CollapseMatches(m: Server, arms: seq<Filter>, d: Document)
    ensures Matches(m, Collapse(arms), d) <==> AnyMatches(m, arms, d)
  {
  }

  lemma ConditionMatches(m: Server, sort: Sort, last: Row, mode: Mode, d: Document)
    requires |sort| == |last|
    ensures var ors := Arms(sort, last, mode);
            Matches(m, KeysetCondition(sort, last, mode), d) <==>
            AnyMatches(m, if ors == [] && mode != All then Arms(sort, last, All) else ors, d)
  {
    var ors := Arms(sort, last, mode);
    CollapseMatches(m, if ors == [] && mode != All then Arms(sort, last, All) else ors, d);
  }

  /** The document is after the boundary, and the deciding column still reaches it. */
  predicate Reached(m: Server, sort: Sort, last: Row, mode: Mode, d: Document)
    requires |sort| == |last|
  {
    exists k :: 0 <= k < |sort| && DecidesAt(m, sort, RowOf(sort, d), last, k) &&
                Reaches(m, mode, sort[k], Get(d, sort[k].field), last[k])
  }

  lemma ArmsReach(m: Server, sort: Sort, last: Row, mode: Mode, d: Document)
    requires |sort| == |last| && Distinct(sort)
    requires Plain(last) && ReadsTrueRow(last) && Plain(RowOf(sort, d))
    ensures AnyMatches(m, Arms(sort, last, mode), d) <==> Reached(m, sort, last, mode, d)
  {
    ArmsMatch(m, sort, last, Columns(sort, last, mode), |sort|, d);
    forall k | 0 <= k < |sort|
      ensures SelectsAt(m, sort, last, Columns(sort, last, mode)[k], d, k) <==>
              DecidesAt(m, sort, RowOf(sort, d), last, k) &&
              Reaches(m, mode, sort[k], Get(d, sort[k].field), last[k])
    {
      assert !Odd(RowOf(sort, d)[k]) && !Odd(last[k]) && ReadsTrue(last[k]);
      ColumnSelects(m, mode, sort[k], last[k], Get(d, sort[k].field));
    }
  }

  /** With every fallback in place no disjunction is empty: `$or: []` is never sent. */
  lemma AllNeverEmpty(sort: Sort, last: Row)
    requires |sort| == |last| > 0
    ensures Arms(sort, last, All) != []
  {
    var n := |sort| - 1;
    ColumnNeverEmpty(sort[n], last[n]);
    LastColumnArms(sort, last, Columns(sort, last, All));
  }

  lemma LastColumnArms(sort: Sort, last: Row, columns: seq<seq<Cond>>)
    requires |sort| == |last| == |columns| > 0 && columns[|sort| - 1] != []
    ensures ArmsOf(sort, last, columns, |sort|) != []
  {
    var n := |sort| - 1;
    var arms := ColumnArms(sort, last, n, columns[n]);
    assert |ArmsOf(sort, last, columns, |sort|)| == |ArmsOf(sort, last, columns, n)| + |arms|;
  }

  lemma ColumnNeverEmpty(key: SortKey, v: Bson)
    ensures ColumnConds(All, key, v) != []
  {
    if SameType(key.dir, v) == [] {
      FallbacksNonempty(key.dir, v);
    }
  }

  lemma FallbacksNonempty(dir: int, v: Bson)
    requires IsNullish(v) || IsDoubleNaN(v)
    ensures Fallbacks(dir, v) != []
  {
    var b := if dir > 0 then MaxKeys else MinKeys;
    NextBracketsAre(dir, v, b);
    ReachNonempty(NextBrackets(dir, v), b);
  }

  lemma ReachNonempty(brackets: set<Bracket>, b: Bracket)
    requires b in brackets
    ensures Reach(brackets) != []
  {
    assert b in brackets - {Nulls, NaNs} || b == Nulls || b == NaNs;
  }

  // ---- main results ----

  /** In every mode: when the condition has arms of its own it selects what the deciding column still
      reaches; when every arm was dropped the full fallback set takes over. */
  lemma ModeExact(m: Server, sort: Sort, last: Row, mode: Mode, d: Document)
    requires |sort| == |last| > 0 && Distinct(sort)
    requires Plain(last) && ReadsTrueRow(last) && Plain(RowOf(sort, d))
    ensures Matches(m, KeysetCondition(sort, last, mode), d) <==>
            if Arms(sort, last, mode) == [] then RowAfter(m, sort, RowOf(sort, d), last)
            else Reached(m, sort, last, mode, d)
  {
    AfterHasDecider(m, sort, RowOf(sort, d), last);
    ArmsReach(m, sort, last, mode, d);
    ArmsReach(m, sort, last, All, d);
    AllNeverEmpty(sort, last);
    ConditionMatches(m, sort, last, mode, d);
  }

  /** Keyset exactness: in `All` mode the condition selects exactly the documents strictly after the
      boundary, across types, directions, null, missing and NaN. */
  lemma KeysetExact(m: Server, sort: Sort, last: Row, d: Document)
    requires |sort| == |last| > 0 && Distinct(sort)
    requires Plain(last) && ReadsTrueRow(last) && Plain(RowOf(sort, d))
    ensures Matches(m, KeysetCondition(sort, last, All), d) <==> RowAfter(m, sort, RowOf(sort, d), last)
  {
    ModeExact(m, sort, last, All, d);
    AfterHasDecider(m, sort, RowOf(sort, d), last);
  }

  /** What a mode asks of the data: nothing, one bracket in the `_id` column, or one in every column. */
  predicate SingleTyped(sort: Sort, mode: Mode, a: Row, b: Row)
    requires |sort| == |a| == |b|
  {
    match mode
    case All => true
    case IdOnly => forall k :: 0 <= k < |sort| && sort[k].field == "_id" ==> BracketOf(a[k]) == BracketOf(b[k])
    case Off => forall k :: 0 <= k < |sort| ==> BracketOf(a[k]) == BracketOf(b[k])
  }

  /** `IdOnly` and `Off` select what `All` selects on single-typed columns. */
  lemma ModesAgree(m: Server, sort: Sort, last: Row, mode: Mode, d: Document)
    requires |sort| == |last| > 0 && Distinct(sort)
    requires Plain(last) && ReadsTrueRow(last) && Plain(RowOf(sort, d))
    requires SingleTyped(sort, mode, RowOf(sort, d), last)
    ensures Matches(m, KeysetCondition(sort, last, mode), d) <==> Matches(m, KeysetCondition(sort, last, All), d)
    ensures Matches(m, KeysetCondition(sort, last, mode), d) <==> RowAfter(m, sort, RowOf(sort, d), last)
  {
    KeysetExact(m, sort, last, d);
    ModeExact(m, sort, last, mode, d);
    AfterHasDecider(m, sort, RowOf(sort, d), last);
  }

  /** In `IdOnly` mode client-chosen columns may hold any types: with the `_id`s alone in one bracket the
      condition is exact. */
  lemma IdOnlyExact(m: Server, sort: Sort, last: Row, d: Document)
    requires |sort| == |last| > 0 && Distinct(sort)
    requires Plain(last) && ReadsTrueRow(last) && Plain(RowOf(sort, d))
    requires forall k :: 0 <= k < |sort| && sort[k].field == "_id" ==> BracketOf(RowOf(sort, d)[k]) == BracketOf(last[k])
    ensures Matches(m, KeysetCondition(sort, last, IdOnly), d) <==> RowAfter(m, sort, RowOf(sort, d), last)
  {
    ModesAgree(m, sort, last, IdOnly, d);
  }

  // ---- what the modes drop ----

  predicate IsRange(c: Cond) {
    c.Gt? || c.Lt? || c.Gte?
  }

  /** The arm pins its earlier columns to the boundary and puts `c` on its own. */
  predicate ArmOn(f: Filter, sort: Sort, last: Row, k: nat, c: Cond)
    requires k < |sort| == |last|
  {
    f.Fields? && |f.conds| == k + 1 && f.conds[k] == (sort[k].field, c) &&
    forall j :: 0 <= j < k ==> f.conds[j] == (sort[j].field, Eq(last[j]))
  }

  /** The arm belongs to some column; to `_id` in `IdOnly` mode, and to any column in `Off` mode, only with a
      range operator, which an index can seek. */
  ghost predicate Seekable(f: Filter, sort: Sort, last: Row, mode: Mode)
    requires |sort| == |last|
  {
    exists k, c :: 0 <= k < |sort| && ArmOn(f, sort, last, k, c) &&
                   (mode.Off? || (mode.IdOnly? && sort[k].field == "_id") ==> IsRange(c))
  }

  lemma ArmIsOn(sort: Sort, last: Row, k: nat, c: Cond)
    requires k < |sort| == |last| && Distinct(sort)
    ensures ArmOn(Arm(sort, last, k, c), sort, last, k, c)
  {
    var part := Prefix(sort, last, k);
    PrefixIsPinned(sort, last, k);
    KeyIndexAbsent(part, sort[k].field);
    assert Arm(sort, last, k, c) == Fields(part + [(sort[k].field, c)]);
  }

  ghost predicate AllSeekable(arms: seq<Filter>, sort: Sort, last: Row, mode: Mode)
    requires |sort| == |last|
  {
    forall i :: 0 <= i < |arms| ==> Seekable(arms[i], sort, last, mode)
  }

  lemma ColumnSeekable(sort: Sort, last: Row, mode: Mode, k: nat)
    requires k < |sort| == |last| && Distinct(sort)
    ensures AllSeekable(ColumnArms(sort, last, k, ColumnConds(mode, sort[k], last[k])), sort, last, mode)
  {
    var conds := ColumnConds(mode, sort[k], last[k]);
    forall i | 0 <= i < |conds| ensures Seekable(Arm(sort, last, k, conds[i]), sort, last, mode) {
      ArmIsOn(sort, last, k, conds[i]);
      OwnConds(mode, sort[k], last[k], i);
    }
  }

  lemma OwnConds(mode: Mode, key: SortKey, v: Bson, i: nat)
    requires i < |ColumnConds(mode, key, v)|
    ensures mode.Off? || (mode.IdOnly? && key.field == "_id") ==> IsRange(ColumnConds(mode, key, v)[i])
  {
  }

  ghost predicate ColumnsSeekable(sort: Sort, last: Row, mode: Mode, columns: seq<seq<Cond>>)
    requires |sort| == |last| == |columns|
  {
    forall k :: 0 <= k < |sort| ==> AllSeekable(ColumnArms(sort, last, k, columns[k]), sort, last, mode)
  }

  lemma {:induction false} ArmsOfSeekable(sort: Sort, last: Row, mode: Mode, columns: seq<seq<Cond>>, n: nat)
    requires n <= |sort| == |last| == |columns| && ColumnsSeekable(sort, last, mode, columns)
    ensures AllSeekable(ArmsOf(sort, last, columns, n), sort, last, mode)
  {
    if n > 0 {
      ArmsOfSeekable(sort, last, mode, columns, n - 1);
      SeekableConcat(ArmsOf(sort, last, columns, n - 1), ColumnArms(sort, last, n - 1, columns[n - 1]), sort, last, mode);
    }
  }

  lemma SeekableConcat(a: seq<Filter>, b: seq<Filter>, sort: Sort, last: Row, mode: Mode)
    requires |sort| == |last| && AllSeekable(a, sort, last, mode) && AllSeekable(b, sort, last, mode)
    ensures AllSeekable(a + b, sort, last, mode)
  {
  }

  /** What dropping fallbacks buys: with any arm of its own, the condition of `Off` mode holds range operators
      only, and that of `IdOnly` mode holds no `$type` and no type equality on `_id`. */
  lemma DroppedArms(sort: Sort, last: Row, mode: Mode)
    requires |sort| == |last| && Distinct(sort)
    ensures AllSeekable(Arms(sort, last, mode), sort, last, mode)
  {
    forall k | 0 <= k < |sort|
      ensures AllSeekable(ColumnArms(sort, last, k, Columns(sort, last, mode)[k]), sort, last, mode)
    {
      ColumnSeekable(sort, last, mode, k);
    }
    ArmsOfSeekable(sort, last, mode, Columns(sort, last, mode), |sort|);
  }

  // ---- decimal NaN: where exactness ends ----

  function DocumentOf(sort: Sort, row: Row): Document
    requires |sort| == |row|
  {
    seq(|sort|, k requires 0 <= k < |sort| => (sort[k].field, row[k]))
  }

  lemma RowOfDocumentOf(sort: Sort, row: Row)
    requires |sort| == |row| && Distinct(sort)
    ensures RowOf(sort, DocumentOf(sort, row)) == row
    ensures forall k :: 0 <= k < |sort| ==> Get(DocumentOf(sort, row), sort[k].field) == Some(row[k])
  {
    forall k | 0 <= k < |sort| ensures Get(DocumentOf(sort, row), sort[k].field) == Some(row[k]) {
      KeyIndexAt(DocumentOf(sort, row), k);
    }
  }

  /** The document that shows a decimal NaN in column `k` misread: ascending a number that is after
      the boundary and missed, descending the boundary itself and served again. */
  function Witness(sort: Sort, last: Row, k: nat): Document
    requires k < |sort| == |last|
  {
    DocumentOf(sort, if sort[k].dir > 0 then last[k := Int32(0)] else last)
  }

  lemma DecimalNaNColumn(m: Server, key: SortKey, v: Bson, x: Bson)
    requires v.Decimal128? && IsNaN(v) && x == if key.dir > 0 then Int32(0) else v
    ensures Selects(m, ColumnConds(All, key, v), Some(x)) <==> key.dir <= 0
  {
    var brackets := NextBrackets(key.dir, v);
    NextBracketsAre(key.dir, v, Numbers);
    NextBracketsAre(key.dir, v, NaNs);
    ReachSelects(m, brackets, Some(x));
    DecimalNaNSameType(m, key.dir, v, x);
    SelectsConcat(m, SameType(key.dir, v), Fallbacks(key.dir, v), Some(x));
  }

  lemma NumberAfterDecimalNaN(m: Server, v: Bson)
    requires v.Decimal128? && IsNaN(v)
    ensures PlaceOf(m, v).Before(PlaceOf(m, Int32(0)))
  {
  }

  lemma TiedNotSelected(m: Server, key: SortKey, v: Bson)
    requires !Odd(v) && ReadsTrue(v)
    ensures !Selects(m, ColumnConds(All, key, v), Some(v))
  {
    ColumnSelects(m, All, key, v, Some(v));
  }

  lemma DecimalNaNSameType(m: Server, dir: int, v: Bson, x: Bson)
    requires v.Decimal128? && IsNaN(v) && !Odd(x)
    ensures !Selects(m, SameType(dir, v), Some(x))
  {
    OneSelects(m, if dir > 0 then Gt(v) else Lt(v), Some(x));
  }

  lemma DecimalNaNMissed(m: Server, sort: Sort, last: Row, k: nat)
    requires k < |sort| == |last| && Distinct(sort) && Plain(last) && sort[k].dir > 0
    requires !ReadsTrue(last[k]) && forall j :: 0 <= j < k ==> ReadsTrue(last[j])
    ensures Plain(RowOf(sort, Witness(sort, last, k)))
    ensures RowAfter(m, sort, RowOf(sort, Witness(sort, last, k)), last)
    ensures !Matches(m, KeysetCondition(sort, last, All), Witness(sort, last, k))
  {
    var row, d := last[k := Int32(0)], Witness(sort, last, k);
    RowOfDocumentOf(sort, row);
    AfterHasDecider(m, sort, row, last);
    NumberAfterDecimalNaN(m, last[k]);
    assert DecidesAt(m, sort, row, last, k);
    DecimalNaNColumn(m, sort[k], last[k], Int32(0));
    NothingSelects(m, sort, last, row, d, k);
    ArmsMatch(m, sort, last, Columns(sort, last, All), |sort|, d);
    ConditionMatches(m, sort, last, All, d);
  }

  /** No column selects a document that ties up to column `k` and is missed there. */
  lemma NothingSelects(m: Server, sort: Sort, last: Row, row: Row, d: Document, k: nat)
    requires k < |sort| == |last| == |row| && Plain(last) && forall j :: 0 <= j < k ==> ReadsTrue(last[j])
    requires RowOf(sort, d) == row && row == last[k := Int32(0)] && Get(d, sort[k].field) == Some(Int32(0))
    requires forall i :: 0 <= i < |sort| ==> Get(d, sort[i].field) == Some(row[i])
    requires !Tie(m, row[k], last[k]) && !Selects(m, ColumnConds(All, sort[k], last[k]), Some(Int32(0)))
    ensures forall i :: 0 <= i < |sort| ==> !SelectsAt(m, sort, last, Columns(sort, last, All)[i], d, i)
  {
    forall i | 0 <= i < |sort| ensures !SelectsAt(m, sort, last, Columns(sort, last, All)[i], d, i) {
      if i < k {
        TiedNotSelected(m, sort[i], last[i]);
      }
    }
  }

  lemma DecimalNaNRepeated(m: Server, sort: Sort, last: Row, k: nat)
    requires k < |sort| == |last| && Distinct(sort) && Plain(last) && sort[k].dir <= 0
    requires !ReadsTrue(last[k])
    ensures RowOf(sort, Witness(sort, last, k)) == last
    ensures !RowAfter(m, sort, last, last)
    ensures Matches(m, KeysetCondition(sort, last, All), Witness(sort, last, k))
  {
    var d := Witness(sort, last, k);
    RowOfDocumentOf(sort, last);
    RowAfterTotal(m, sort, last, last);
    DecimalNaNColumn(m, sort[k], last[k], last[k]);
    assert SelectsAt(m, sort, last, Columns(sort, last, All)[k], d, k);
    ArmsMatch(m, sort, last, Columns(sort, last, All), |sort|, d);
    ConditionMatches(m, sort, last, All, d);
  }

  /** Exactness holds for all documents if and only if no boundary column is a decimal NaN, the one
      NaN the code does not recognise. */
  lemma KeysetExactIff(m: Server, sort: Sort, last: Row)
    requires |sort| == |last| > 0 && Distinct(sort) && Plain(last)
    ensures (forall k :: 0 <= k < |last| ==> !(last[k].Decimal128? && IsNaN(last[k]))) <==>
            (forall d: Document :: Plain(RowOf(sort, d)) ==>
               (Matches(m, KeysetCondition(sort, last, All), d) <==> RowAfter(m, sort, RowOf(sort, d), last)))
  {
    assert ReadsTrueRow(last) <==> forall k :: 0 <= k < |last| ==> !(last[k].Decimal128? && IsNaN(last[k]));
    if ReadsTrueRow(last) {
      forall d: Document | Plain(RowOf(sort, d))
        ensures Matches(m, KeysetCondition(sort, last, All), d) <==> RowAfter(m, sort, RowOf(sort, d), last)
      {
        KeysetExact(m, sort, last, d);
      }
    } else {
      var k := FirstMisread(last);
      if sort[k].dir > 0 {
        DecimalNaNMissed(m, sort, last, k);
      } else {
        DecimalNaNRepeated(m, sort, last, k);
      }
    }
  }

  lemma {:induction false} FirstMisread(row: Row) returns (k: nat)
    requires !ReadsTrueRow(row)
    ensures k < |row| && !ReadsTrue(row[k]) && forall j :: 0 <= j < k ==> ReadsTrue(row[j])
  {
    k := 0;
    while ReadsTrue(row[k])
      invariant k < |row| && forall j :: 0 <= j < k ==> ReadsTrue(row[j])
      decreases |row| - k
    {
      k := k + 1;
    }
  }
}
