/** The keyset continuation condition of src/dbq.rs: which documents come after a page boundary,
    written in a language whose operators compare inside one type while the sort crosses types. */
module Keyset {
  import opened Prelude
  import opened BsonValues
  import opened Mongo

  /** `runtime.keyset_type_brackets`. */
  datatype Mode = All | IdOnly | Off

  /** `bson_type_bracket`: only a double can be NaN here, a decimal is always "number". */
  function CodeBracket(v: Bson): Bracket {
    if v.Decimal128? then Numbers else BracketOf(v)
  }

  /** `type_brackets_after`: the names listed after the value's own. */
  function BracketsAfter(v: Bson): set<Bracket> {
    set b: Bracket | IndexOf(b) > IndexOf(CodeBracket(v))
  }

  /** `type_brackets_before`. */
  function BracketsBefore(v: Bson): set<Bracket> {
    set b: Bracket | IndexOf(b) < IndexOf(CodeBracket(v))
  }

  predicate IsDoubleNaN(v: Bson) {
    v == Double(NaN)
  }

  // ---- one column ----

  /** The same-type continuation: at most one condition on the column. */
  function SameType(dir: int, v: Bson): seq<Cond> {
    if IsNullish(v) then []
    else if IsDoubleNaN(v) then (if dir > 0 then [Gte(Double(NegInf))] else [])
    else [if dir > 0 then Gt(v) else Lt(v)]
  }

  /** The brackets the column continues into. */
  function NextBrackets(dir: int, v: Bson): set<Bracket> {
    var brackets := if dir > 0 then BracketsAfter(v) else BracketsBefore(v);
    if IsDoubleNaN(v) && dir > 0 then brackets - {Numbers} else brackets
  }

  /** Reaching a list of brackets: `$type` where it works, equality for null/missing and for NaN. */
  function Reach(brackets: set<Bracket>): seq<Cond> {
    var rest := brackets - {Nulls, NaNs};
    (if rest != {} then [TypeIn(rest)] else []) +
    (if Nulls in brackets then [Eq(Null)] else []) +
    (if NaNs in brackets then [Eq(Double(NaN))] else [])
  }

  /** The type-bracket fallbacks of a column. */
  function Fallbacks(dir: int, v: Bson): seq<Cond> {
    Reach(NextBrackets(dir, v))
  }

  predicate SkipsBrackets(mode: Mode, field: string) {
    mode.Off? || (mode.IdOnly? && field == "_id")
  }

  function ColumnConds(mode: Mode, key: SortKey, v: Bson): seq<Cond> {
    SameType(key.dir, v) + if SkipsBrackets(mode, key.field) then [] else Fallbacks(key.dir, v)
  }

  // ---- all columns ----

  /** The equality part of an arm: every column before `k` pinned to the boundary. */
  function Prefix(sort: Sort, last: Row, k: nat): seq<(string, Cond)>
    requires k <= |sort| == |last|
  {
    if k == 0 then [] else Insert(Prefix(sort, last, k - 1), sort[k - 1].field, Eq(last[k - 1]))
  }

  function Arm(sort: Sort, last: Row, k: nat, c: Cond): Filter
    requires k < |sort| == |last|
  {
    Fields(Insert(Prefix(sort, last, k), sort[k].field, c))
  }

  function ColumnArms(sort: Sort, last: Row, k: nat, conds: seq<Cond>): (r: seq<Filter>)
    requires k < |sort| == |last|
    ensures |r| == |conds| && forall i {:trigger r[i]} :: 0 <= i < |r| ==> r[i] == Arm(sort, last, k, conds[i])
  {
    seq(|conds|, i requires 0 <= i < |conds| => Arm(sort, last, k, conds[i]))
  }

  /** The conditions of every column. */
  function Columns(sort: Sort, last: Row, mode: Mode): (r: seq<seq<Cond>>)
    requires |sort| == |last|
    ensures |r| == |sort| && forall k {:trigger r[k]} :: 0 <= k < |r| ==> r[k] == ColumnConds(mode, sort[k], last[k])
  {
    seq(|sort|, k requires 0 <= k < |sort| => ColumnConds(mode, sort[k], last[k]))
  }

  /** The disjuncts contributed by the first `n` columns, in the order they are pushed. */
  function ArmsOf(sort: Sort, last: Row, columns: seq<seq<Cond>>, n: nat): seq<Filter>
    requires n <= |sort| == |last| == |columns|
  {
    if n == 0 then []
    else ArmsOf(sort, last, columns, n - 1) + ColumnArms(sort, last, n - 1, columns[n - 1])
  }

  function Arms(sort: Sort, last: Row, mode: Mode): seq<Filter>
    requires |sort| == |last|
  {
    ArmsOf(sort, last, Columns(sort, last, mode), |sort|)
  }

  /** `keyset_condition`: an empty disjunction falls back to the full bracket set. */
  function KeysetCondition(sort: Sort, last: Row, mode: Mode): Filter
    requires |sort| == |last|
  {
    var ors := Arms(sort, last, mode);
    Collapse(if ors == [] && mode != All then Arms(sort, last, All) else ors)
  }

  /** A single arm stands alone, without `$or`. */
  function Collapse(arms: seq<Filter>): Filter {
    if |arms| == 1 then arms[0] else Or(arms)
  }

  /** The loop of `keyset_ors`: grows the vector of disjuncts column by column. */
  method KeysetOrs(sort: Sort, last: Row, mode: Mode) returns (ors: seq<Filter>)
    requires |sort| == |last|
    ensures ors == Arms(sort, last, mode)
  {
    ghost var columns := Columns(sort, last, mode);
    ors := [];
    for k := 0 to |sort|
      invariant ors == ArmsOf(sort, last, columns, k)
    {
      var arms := ColumnOrs(sort, last, mode, k);
      ors := ors + arms;
    }
  }

  /** One turn of that loop. */
  method ColumnOrs(sort: Sort, last: Row, mode: Mode, k: nat) returns (ors: seq<Filter>)
    requires k < |sort| == |last|
    ensures ors == ColumnArms(sort, last, k, ColumnConds(mode, sort[k], last[k]))
  {
    var pinned := PinPrefix(sort, last, k);
    ors := PushSameType(sort, last, k, pinned);
    var skip := match mode case All => false case IdOnly => sort[k].field == "_id" case Off => true;
    if !skip {
      var brackets := NextBrackets(sort[k].dir, last[k]);
      var next := PushBrackets(sort, last, k, pinned, brackets);
      ColumnArmsConcat(sort, last, k, SameType(sort[k].dir, last[k]), Reach(brackets));
      ors := ors + next;
    }
  }

  lemma ColumnArmsConcat(sort: Sort, last: Row, k: nat, a: seq<Cond>, b: seq<Cond>)
    requires k < |sort| == |last|
    ensures ColumnArms(sort, last, k, a + b) == ColumnArms(sort, last, k, a) + ColumnArms(sort, last, k, b)
  {
  }

  /** The same-type continuation of column `k`. */
  method PushSameType(sort: Sort, last: Row, k: nat, pinned: seq<(string, Cond)>) returns (ors: seq<Filter>)
    requires k < |sort| == |last| && pinned == Prefix(sort, last, k)
    ensures ors == ColumnArms(sort, last, k, SameType(sort[k].dir, last[k]))
  {
    ors := [];
    if !IsNullish(last[k]) {
      if IsDoubleNaN(last[k]) {
        if sort[k].dir > 0 {
          ors := ors + [Fields(Insert(pinned, sort[k].field, Gte(Double(NegInf))))];
        }
      } else {
        var cmp := if sort[k].dir > 0 then Gt(last[k]) else Lt(last[k]);
        ors := ors + [Fields(Insert(pinned, sort[k].field, cmp))];
      }
    }
  }

  /** The type-bracket continuation of column `k`, for the brackets still to come. */
  method PushBrackets(sort: Sort, last: Row, k: nat, pinned: seq<(string, Cond)>, brackets: set<Bracket>)
    returns (ors: seq<Filter>)
    requires k < |sort| == |last| && pinned == Prefix(sort, last, k)
    ensures ors == ColumnArms(sort, last, k, Reach(brackets))
  {
    ors := [];
    if brackets != {} {
      ReachArms(sort, last, k, brackets);
      var rest := brackets - {Nulls, NaNs};
      if rest != {} {
        ors := ors + [Fields(Insert(pinned, sort[k].field, TypeIn(rest)))];
      }
      if Nulls in brackets {
        ors := ors + [Fields(Insert(pinned, sort[k].field, Eq(Null)))];
      }
      if NaNs in brackets {
        ors := ors + [Fields(Insert(pinned, sort[k].field, Eq(Double(NaN))))];
      }
    }
  }

  lemma ReachArms(sort: Sort, last: Row, k: nat, brackets: set<Bracket>)
    requires k < |sort| == |last|
    ensures var rest := brackets - {Nulls, NaNs};
            ColumnArms(sort, last, k, Reach(brackets)) ==
            ColumnArms(sort, last, k, if rest != {} then [TypeIn(rest)] else []) +
            ColumnArms(sort, last, k, if Nulls in brackets then [Eq(Null)] else []) +
            ColumnArms(sort, last, k, if NaNs in brackets then [Eq(Double(NaN))] else [])
  {
    var rest := brackets - {Nulls, NaNs};
    var t := if rest != {} then [TypeIn(rest)] else [];
    var n := if Nulls in brackets then [Eq(Null)] else [];
    var a := if NaNs in brackets then [Eq(Double(NaN))] else [];
    ColumnArmsConcat(sort, last, k, t + n, a);
    ColumnArmsConcat(sort, last, k, t, n);
  }

  /** The `for j in 0..k` loop that pins the earlier columns. */
  method PinPrefix(sort: Sort, last: Row, k: nat) returns (part: seq<(string, Cond)>)
    requires k <= |sort| == |last|
    ensures part == Prefix(sort, last, k)
  {
    part := [];
    for j := 0 to k
      invariant part == Prefix(sort, last, j)
    {
      part := Insert(part, sort[j].field, Eq(last[j]));
    }
  }

  // ---- what one column selects ----

  /** A boundary value the code reads as the server does. */
  predicate ReadsTrue(v: Bson) {
    CodeBracket(v) == BracketOf(v)
  }

  predicate Selects(m: Server, conds: seq<Cond>, x: Option<Bson>) {
    exists i :: 0 <= i < |conds| && Holds(m, conds[i], x)
  }

  lemma SelectsConcat(m: Server, a: seq<Cond>, b: seq<Cond>, x: Option<Bson>)
    ensures Selects(m, a + b, x) <==> Selects(m, a, x) || Selects(m, b, x)
  {
    if Selects(m, a, x) {
      var i :| 0 <= i < |a| && Holds(m, a[i], x);
      assert (a + b)[i] == a[i];
    }
    if Selects(m, b, x) {
      var i :| 0 <= i < |b| && Holds(m, b[i], x);
      assert (a + b)[|a| + i] == b[i];
    }
  }

  /** The numbers are reached from an ascending NaN by `$gte: -Inf`. */
  predicate NumberAfterNaN(w: Bson, v: Bson) {
    IsDoubleNaN(v) && BracketOf(w) == Numbers
  }

  /** The same bracket, or a number ahead of a NaN boundary. */
  predicate Near(w: Bson, v: Bson) {
    BracketOf(w) == BracketOf(v) || NumberAfterNaN(w, v)
  }

  /** The server answers `$gt: MinKey` and `$lt: MaxKey` for other types too. */
  predicate Crosses(m: Server, dir: int, x: Option<Bson>, v: Bson) {
    if dir > 0 then v.MinKey? && m.beyond(Gt(v), x) else v.MaxKey? && m.beyond(Lt(v), x)
  }

  /** What a column without its fallbacks still reaches. */
  predicate Kept(m: Server, dir: int, x: Option<Bson>, v: Bson) {
    Near(SortValue(x), v) || Crosses(m, dir, x, v)
  }

  /** The same-type condition selects the later values of the boundary's own bracket, the numbers when the
      boundary is an ascending NaN, and what the server adds from MinKey up or from MaxKey down. */
  lemma SameTypeSelects(m: Server, dir: int, v: Bson, x: Option<Bson>)
    requires !Odd(v) && (x.Some? ==> !Odd(x.value)) && ReadsTrue(v)
    ensures Selects(m, SameType(dir, v), x) <==> After(m, dir, SortValue(x), v) && Kept(m, dir, x, v)
  {
    PlaceHasBracket(m, v);
    PlaceHasBracket(m, SortValue(x));
    if IsNullish(v) {
    } else if IsDoubleNaN(v) {
      OneSelects(m, Gte(Double(NegInf)), x);
      NumbersFromNegInf(m, x);
    } else {
      OneSelects(m, if dir > 0 then Gt(v) else Lt(v), x);
      RangeHolds(m, dir, v, x);
    }
  }

  lemma NumbersFromNegInf(m: Server, x: Option<Bson>)
    requires x.Some? ==> !Odd(x.value)
    ensures Holds(m, Gte(Double(NegInf)), x) <==> BracketOf(SortValue(x)) == Numbers
  {
    PlaceHasBracket(m, SortValue(x));
  }

  lemma RangeHolds(m: Server, dir: int, v: Bson, x: Option<Bson>)
    requires !Odd(v) && (x.Some? ==> !Odd(x.value)) && !IsNullish(v) && !IsNaN(v)
    ensures Holds(m, if dir > 0 then Gt(v) else Lt(v), x) <==>
            After(m, dir, SortValue(x), v) && (BracketOf(SortValue(x)) == BracketOf(v) || Crosses(m, dir, x, v))
  {
    PlaceHasBracket(m, v);
    PlaceHasBracket(m, SortValue(x));
    IndexInjective(BracketOf(SortValue(x)), BracketOf(v));
  }

  /** Reaching brackets selects exactly the values the server sorts in them. */
  lemma ReachSelects(m: Server, brackets: set<Bracket>, x: Option<Bson>)
    requires x.Some? ==> !Odd(x.value)
    requires Numbers in brackets ==> NaNs in brackets
    ensures Selects(m, Reach(brackets), x) <==> BracketOf(SortValue(x)) in brackets
  {
    var rest := brackets - {Nulls, NaNs};
    var t := if rest != {} then [TypeIn(rest)] else [];
    var n := if Nulls in brackets then [Eq(Null)] else [];
    var a := if NaNs in brackets then [Eq(Double(NaN))] else [];
    SelectsConcat(m, t + n, a, x);
    SelectsConcat(m, t, n, x);
    OneSelects(m, TypeIn(rest), x);
    OneSelects(m, Eq(Null), x);
    OneSelects(m, Eq(Double(NaN)), x);
    TieHolds(m, x);
    TypeHolds(m, rest, x);
  }

  lemma TieHolds(m: Server, x: Option<Bson>)
    requires x.Some? ==> !Odd(x.value)
    ensures Holds(m, Eq(Null), x) <==> BracketOf(SortValue(x)) == Nulls
    ensures Holds(m, Eq(Double(NaN)), x) <==> BracketOf(SortValue(x)) == NaNs
  {
    PlaceHasBracket(m, SortValue(x));
  }

  lemma TypeHolds(m: Server, rest: set<Bracket>, x: Option<Bson>)
    requires x.Some? ==> !Odd(x.value)
    requires Nulls !in rest && NaNs !in rest
    ensures Holds(m, TypeIn(rest), x) <==>
            BracketOf(SortValue(x)) in rest || (BracketOf(SortValue(x)) == NaNs && Numbers in rest)
  {
  }

  lemma OneSelects(m: Server, c: Cond, x: Option<Bson>)
    ensures Selects(m, [c], x) <==> Holds(m, c, x)
  {
    assert Holds(m, c, x) ==> Holds(m, [c][0], x);
  }

  /** A bracket that comes after bracket `at`, unless the numbers are reached from a NaN anyway. */
  predicate Comes(dir: int, at: Bracket, nan: bool, b: Bracket) {
    (if dir > 0 then IndexOf(b) > IndexOf(at) else IndexOf(b) < IndexOf(at)) &&
    !(nan && dir > 0 && b == Numbers)
  }

  /** Bracket `b` is one the column continues into. */
  predicate Continues(dir: int, v: Bson, b: Bracket) {
    Comes(dir, CodeBracket(v), IsDoubleNaN(v), b)
  }

  lemma LaterBrackets(m: Server, dir: int, w: Bson, v: Bson)
    requires ReadsTrue(v)
    ensures Continues(dir, v, BracketOf(w)) <==> After(m, dir, w, v) && !Near(w, v)
  {
    PlaceHasBracket(m, w);
    PlaceHasBracket(m, v);
    LaterByPlace(dir, PlaceOf(m, w), PlaceOf(m, v), IsDoubleNaN(v));
  }

  lemma LaterByPlace(dir: int, p: Place, q: Place, nan: bool)
    requires nan ==> q.bracket == NaNs
    ensures Comes(dir, q.bracket, nan, p.bracket) <==>
            PlaceAfter(dir, p, q) && !(p.bracket == q.bracket || (nan && p.bracket == Numbers))
  {
    IndexInjective(p.bracket, q.bracket);
  }

  lemma ContinuesIntoNaNs(dir: int, v: Bson)
    ensures Continues(dir, v, Numbers) ==> Continues(dir, v, NaNs)
  {
  }

  lemma FallbacksSelect(m: Server, dir: int, v: Bson, x: Option<Bson>)
    requires (x.Some? ==> !Odd(x.value)) && ReadsTrue(v)
    ensures Selects(m, Fallbacks(dir, v), x) <==> After(m, dir, SortValue(x), v) && !Near(SortValue(x), v)
  {
    var brackets := NextBrackets(dir, v);
    NextBracketsAre(dir, v, Numbers);
    NextBracketsAre(dir, v, NaNs);
    NextBracketsAre(dir, v, BracketOf(SortValue(x)));
    ContinuesIntoNaNs(dir, v);
    ReachSelects(m, brackets, x);
    LaterBrackets(m, dir, SortValue(x), v);
  }

  lemma NextBracketsAre(dir: int, v: Bson, b: Bracket)
    ensures b in NextBrackets(dir, v) <==> Continues(dir, v, b)
  {
  }

  /** What the conditions of one column reach of what comes after the boundary: everything in `All` mode and, in
      `IdOnly` mode, in every column but `_id`. */
  predicate Reaches(m: Server, mode: Mode, key: SortKey, x: Option<Bson>, v: Bson) {
    match mode
    case All => true
    case IdOnly => key.field == "_id" ==> Kept(m, key.dir, x, v)
    case Off => Kept(m, key.dir, x, v)
  }

  /** One column of the condition, exactly: the dropped fallbacks lose the values of other brackets (an
      ascending NaN boundary still reaches the numbers, an extreme key what the server makes of it) and
      nothing else. */
  lemma ColumnSelects(m: Server, mode: Mode, key: SortKey, v: Bson, x: Option<Bson>)
    requires !Odd(v) && (x.Some? ==> !Odd(x.value)) && ReadsTrue(v)
    ensures Selects(m, ColumnConds(mode, key, v), x) <==>
            After(m, key.dir, SortValue(x), v) && Reaches(m, mode, key, x, v)
  {
    SameTypeSelects(m, key.dir, v, x);
    FallbacksSelect(m, key.dir, v, x);
    SelectsConcat(m, SameType(key.dir, v), Fallbacks(key.dir, v), x);
    if SkipsBrackets(mode, key.field) {
      assert ColumnConds(mode, key, v) == SameType(key.dir, v);
    }
  }
}
