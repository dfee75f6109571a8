/** The part of MongoDB that pagination relies on: the sort order over BSON values, a small query
    language and `find` with sort and limit. The order inside one type bracket, and every operator
    on values the proxy does not page over, are left arbitrary. */
module Mongo {
  import opened Prelude
  import opened BsonValues

  /** Type brackets, the names of TYPE_ORDER. */
  datatype Bracket =
    | MinKeys | Nulls | NaNs | Numbers | Symbols | Strings | Objects | Arrays | Binaries | ObjectIds
    | DbPointers | Bools | Dates | Timestamps | Regexes | Scripts | ScopedScripts | MaxKeys

  /** The position of a bracket in TYPE_ORDER, the server's ascending order of types. */
  function IndexOf(b: Bracket): nat {
    match b
    case MinKeys => 0
    case Nulls => 1
    case NaNs => 2
    case Numbers => 3
    case Symbols => 4
    case Strings => 5
    case Objects => 6
    case Arrays => 7
    case Binaries => 8
    case ObjectIds => 9
    case DbPointers => 10
    case Bools => 11
    case Dates => 12
    case Timestamps => 13
    case Regexes => 14
    case Scripts => 15
    case ScopedScripts => 16
    case MaxKeys => 17
  }

  predicate IsNumeric(v: Bson) {
    v.Double? || v.Int32? || v.Int64? || v.Decimal128?
  }

  /** What numbers of every type are compared by. */
  datatype Size = NotANumber | Lowest | Finite(r: real) | Highest

  function Power(base: real, e: int): real
    requires base > 0.0
    decreases if e < 0 then -e else e
  {
    if e == 0 then 1.0 else if e > 0 then base * Power(base, e - 1) else Power(base, e + 1) / base
  }

  function NumberValue(v: Bson): Size
    requires IsNumeric(v)
  {
    match v
    case Double(NaN) => NotANumber
    case Double(NegInf) => Lowest
    case Double(Fin(m, e)) => Finite(m as real * Power(2.0, e))
    case Double(PosInf) => Highest
    case Int32(i) => Finite(i as real)
    case Int64(l) => Finite(l as real)
    case Decimal128(DecimalNaN) => NotANumber
    case Decimal128(DecimalNegInf) => Lowest
    case Decimal128(DecimalFin(c, e)) => Finite(c as real * Power(10.0, e))
    case Decimal128(DecimalPosInf) => Highest
  }

  predicate IsNaN(v: Bson) {
    IsNumeric(v) && NumberValue(v).NotANumber?
  }

  predicate IsNullish(v: Bson) {
    v.Null? || v.Undefined?
  }

  /** The bracket the server sorts a value in: every NaN, double or decimal, precedes the numbers. */
  function BracketOf(v: Bson): Bracket {
    match v
    case MinKey => MinKeys
    case Null => Nulls
    case Undefined => Nulls
    case Double(_) => if IsNaN(v) then NaNs else Numbers
    case Int32(_) => Numbers
    case Int64(_) => Numbers
    case Decimal128(_) => if IsNaN(v) then NaNs else Numbers
    case Symbol(_) => Symbols
    case String(_) => Strings
    case Document(_) => Objects
    case Array(_) => Arrays
    case Binary(_, _) => Binaries
    case ObjectId(_) => ObjectIds
    case DbPointer(_) => DbPointers
    case Boolean(_) => Bools
    case DateTime(_) => Dates
    case Timestamp(_, _) => Timestamps
    case RegularExpression(_, _) => Regexes
    case JavaScriptCode(_) => Scripts
    case JavaScriptCodeWithScope(_, _) => ScopedScripts
    case MaxKey => MaxKeys
  }

  /** Values whose matching is not value comparison: arrays match element-wise, a regular expression
      matches by pattern, a document with a `$` key is read as operators, and the server refuses to be
      asked for undefined. */
  predicate Odd(v: Bson) {
    v.Array? || v.RegularExpression? || v.Undefined? ||
    (v.Document? && exists i :: 0 <= i < |v.fields| && v.fields[i].0 != "" && v.fields[i].0[0] == '$')
  }

  // ---- the sort order ----

  /** Where a value sits in the ascending sort order; equal places are ties. */
  datatype Place = Place(bracket: Bracket, tier: int, rank: real) {
    predicate Before(other: Place) {
      IndexOf(bracket) < IndexOf(other.bracket) ||
      (bracket == other.bracket && (tier < other.tier || (tier == other.tier && rank < other.rank)))
    }
  }

  /** One server: `rank` is any total preorder on the values of one non-numeric bracket (the values are
      countably many, so every total preorder on them has real ranks), `odd` is whatever a condition does to
      values that are not compared by value, `beyond` whatever `$gt: MinKey` and `$lt: MaxKey` do to values
      of other types, to which those two operands are not confined. */
  datatype Server = Server(rank: Bson -> real, odd: (Cond, Option<Bson>) -> bool, beyond: (Cond, Option<Bson>) -> bool)

  function PlaceOf(m: Server, v: Bson): Place {
    var bracket := BracketOf(v);
    if IsNullish(v) || IsNaN(v) then Place(bracket, 0, 0.0)
    else if IsNumeric(v) then
      match NumberValue(v)
      case Lowest => Place(bracket, -1, 0.0)
      case Finite(r) => Place(bracket, 0, r)
      case Highest => Place(bracket, 1, 0.0)
      case NotANumber => Place(bracket, 0, 0.0)
    else Place(bracket, 0, m.rank(v))
  }

  lemma IndexInjective(a: Bracket, b: Bracket)
    ensures IndexOf(a) == IndexOf(b) ==> a == b
  {
  }

  lemma PlaceHasBracket(m: Server, a: Bson)
    ensures PlaceOf(m, a).bracket == BracketOf(a)
    ensures BracketOf(a) == Nulls || BracketOf(a) == NaNs ==> PlaceOf(m, a) == Place(BracketOf(a), 0, 0.0)
    ensures BracketOf(a) == Numbers ==> !PlaceOf(m, a).Before(PlaceOf(m, Double(NegInf)))
  {
  }

  /** A field as the sort sees it: missing sorts as null. */
  function SortValue(x: Option<Bson>): Bson {
    if x.Some? then x.value else Null
  }

  predicate Tie(m: Server, a: Bson, b: Bson) {
    PlaceOf(m, a) == PlaceOf(m, b)
  }

  /** Direction as the code reads it: positive ascending, anything else descending. */
  datatype SortKey = SortKey(field: string, dir: int)

  type Sort = seq<SortKey>

  predicate Distinct(sort: Sort) {
    forall i, j :: 0 <= i < j < |sort| ==> sort[i].field != sort[j].field
  }

  predicate PlaceAfter(dir: int, a: Place, b: Place) {
    if dir > 0 then b.Before(a) else a.Before(b)
  }

  /** `a` is strictly after `b` in direction `dir`. */
  predicate After(m: Server, dir: int, a: Bson, b: Bson) {
    PlaceAfter(dir, PlaceOf(m, a), PlaceOf(m, b))
  }

  type Row = seq<Bson>

  function RowOf(sort: Sort, d: Document): (r: Row)
    ensures |r| == |sort|
    ensures forall k {:trigger r[k]} :: 0 <= k < |sort| ==> r[k] == SortValue(Get(d, sort[k].field))
  {
    seq(|sort|, k requires 0 <= k < |sort| => SortValue(Get(d, sort[k].field)))
  }

  /** The multi-column order: the first column that is not a tie decides. */
  predicate RowAfter(m: Server, sort: Sort, a: Row, b: Row)
    requires |a| == |b| == |sort|
  {
    sort != [] &&
    (After(m, sort[0].dir, a[0], b[0]) ||
     (Tie(m, a[0], b[0]) && RowAfter(m, sort[1..], a[1..], b[1..])))
  }

  predicate RowTie(m: Server, a: Row, b: Row)
    requires |a| == |b|
  {
    forall k :: 0 <= k < |a| ==> Tie(m, a[k], b[k])
  }

  lemma {:induction false} RowAfterTransitive(m: Server, sort: Sort, a: Row, b: Row, c: Row)
    requires |a| == |b| == |c| == |sort|
    requires RowAfter(m, sort, a, b) && RowAfter(m, sort, b, c)
    ensures RowAfter(m, sort, a, c)
  {
    if Tie(m, a[0], b[0]) && Tie(m, b[0], c[0]) {
      RowAfterTransitive(m, sort[1..], a[1..], b[1..], c[1..]);
    }
  }

  lemma RowTieStep(m: Server, a: Row, b: Row)
    requires |a| == |b| > 0
    ensures RowTie(m, a, b) <==> Tie(m, a[0], b[0]) && RowTie(m, a[1..], b[1..])
  {
    assert forall k :: 0 <= k < |a| - 1 ==> a[1..][k] == a[k + 1] && b[1..][k] == b[k + 1];
    if Tie(m, a[0], b[0]) && RowTie(m, a[1..], b[1..]) {
      forall k | 0 <= k < |a| ensures Tie(m, a[k], b[k]) {
        if k > 0 { assert Tie(m, a[1..][k - 1], b[1..][k - 1]); }
      }
    }
    if RowTie(m, a, b) {
      forall k | 0 <= k < |a| - 1 ensures Tie(m, a[1..][k], b[1..][k]) {
        assert Tie(m, a[k + 1], b[k + 1]);
      }
    }
  }

  lemma AfterTotal(m: Server, dir: int, a: Bson, b: Bson)
    ensures After(m, dir, a, b) || After(m, dir, b, a) || Tie(m, a, b)
    ensures !(After(m, dir, a, b) && After(m, dir, b, a))
    ensures Tie(m, a, b) ==> !After(m, dir, a, b)
  {
    IndexInjective(PlaceOf(m, a).bracket, PlaceOf(m, b).bracket);
  }

  lemma {:induction false} RowAfterTotal(m: Server, sort: Sort, a: Row, b: Row)
    requires |a| == |b| == |sort|
    ensures RowAfter(m, sort, a, b) || RowAfter(m, sort, b, a) || RowTie(m, a, b)
    ensures !(RowAfter(m, sort, a, b) && RowAfter(m, sort, b, a))
    ensures RowTie(m, a, b) ==> !RowAfter(m, sort, a, b)
  {
    if sort != [] {
      RowAfterTotal(m, sort[1..], a[1..], b[1..]);
      AfterTotal(m, sort[0].dir, a[0], b[0]);
      RowTieStep(m, a, b);
    }
  }

  // ---- the query language ----

  datatype Cond =
    | Eq(v: Bson)
    | Gt(v: Bson)
    | Lt(v: Bson)
    | Gte(v: Bson)
    | TypeIn(types: set<Bracket>)

  datatype Filter =
    | Fields(conds: seq<(string, Cond)>)
    | Or(arms: seq<Filter>)
    | And(parts: seq<Filter>)
    | Test(pred: Document -> bool)

  predicate IsOddCase(c: Cond, x: Option<Bson>) {
    (x.Some? && Odd(x.value)) || (!c.TypeIn? && Odd(c.v))
  }

  /** `$type` with a list of names; "number" covers every numeric type, NaN included, and no name
      covers a missing field. */
  predicate HasType(types: set<Bracket>, v: Bson) {
    (IsNumeric(v) && Numbers in types) || (!IsNumeric(v) && BracketOf(v) in types)
  }

  /** Whether a field satisfies a condition. Range operators compare inside one type only, except `$gt: MinKey`
      and `$lt: MaxKey`, and never hold against NaN, except `$gte` between two NaNs; with a null operand they
      hold for every null or missing field. */
  predicate Holds(m: Server, c: Cond, x: Option<Bson>) {
    if IsOddCase(c, x) then m.odd(c, x)
    else
      var v := SortValue(x);
      match c
      case Eq(w) => Tie(m, v, w)
      case Gt(w) =>
        if IsNullish(w) then IsNullish(v)
        else if BracketOf(v) == BracketOf(w) then !IsNaN(w) && PlaceOf(m, w).Before(PlaceOf(m, v))
        else w.MinKey? && m.beyond(c, x)
      case Lt(w) =>
        if IsNullish(w) then IsNullish(v)
        else if BracketOf(v) == BracketOf(w) then !IsNaN(w) && PlaceOf(m, v).Before(PlaceOf(m, w))
        else w.MaxKey? && m.beyond(c, x)
      case Gte(w) =>
        if IsNullish(w) then IsNullish(v)
        else BracketOf(v) == BracketOf(w) && !PlaceOf(m, v).Before(PlaceOf(m, w))
      case TypeIn(types) => x.Some? && HasType(types, v)
  }

  predicate Matches(m: Server, f: Filter, d: Document) {
    match f
    case Fields(conds) => forall i :: 0 <= i < |conds| ==> Holds(m, conds[i].1, Get(d, conds[i].0))
    case Or(arms) => exists i :: 0 <= i < |arms| && Matches(m, arms[i], d)
    case And(parts) => forall i :: 0 <= i < |parts| ==> Matches(m, parts[i], d)
    case Test(pred) => pred(d)
  }
}
