/** The whole walk: following `next_cursor` visits the sorted, filtered scan, each document once. */
module PageWalk {
  import opened Prelude
  import opened BsonValues
  import opened Mongo
  import opened Keyset
  import opened KeysetMeaning
  import opened Projections
  import opened Paging

  // ---- the server's sort ----

  /** No document is after a later one. */
  predicate Sorted(m: Server, sort: Sort, docs: seq<Document>) {
    forall i, j :: 0 <= i < j < |docs| ==> !DocAfter(m, sort, docs[i], docs[j])
  }

  lemma NotAfterTransitive(m: Server, sort: Sort, a: Document, b: Document, c: Document)
    requires !DocAfter(m, sort, a, b) && !DocAfter(m, sort, b, c)
    ensures !DocAfter(m, sort, a, c)
  {
    var x, y, z := RowOf(sort, a), RowOf(sort, b), RowOf(sort, c);
    if DocAfter(m, sort, a, c) {
      RowAfterTotal(m, sort, x, y);
      RowAfterTotal(m, sort, y, z);
      if RowAfter(m, sort, y, x) {
        RowAfterTransitive(m, sort, y, x, z);
      } else {
        RowAfterCongruent(m, sort, x, y, z);
      }
    }
  }

  lemma {:induction false} RowAfterCongruent(m: Server, sort: Sort, a: Row, b: Row, c: Row)
    requires |a| == |b| == |c| == |sort| && RowTie(m, a, b)
    ensures RowAfter(m, sort, a, c) <==> RowAfter(m, sort, b, c)
  {
    if sort != [] {
      assert Tie(m, a[0], b[0]);
      assert forall k :: 0 <= k < |a| - 1 ==> a[1..][k] == a[k + 1] && b[1..][k] == b[k + 1];
      RowAfterCongruent(m, sort[1..], a[1..], b[1..], c[1..]);
    }
  }

  lemma {:induction false} Place1Permutes(m: Server, sort: Sort, d: Document, docs: seq<Document>)
    ensures multiset(Place1(m, sort, d, docs)) == multiset(docs) + multiset{d}
  {
    if docs != [] && DocAfter(m, sort, d, docs[0]) {
      assert docs == [docs[0]] + docs[1..];
      Place1Permutes(m, sort, d, docs[1..]);
    }
  }

  predicate NotAfterAny(m: Server, sort: Sort, d: Document, docs: seq<Document>) {
    forall j :: 0 <= j < |docs| ==> !DocAfter(m, sort, d, docs[j])
  }

  lemma {:induction false} Place1NotAfter(m: Server, sort: Sort, c: Document, d: Document, docs: seq<Document>)
    requires !DocAfter(m, sort, c, d) && NotAfterAny(m, sort, c, docs)
    ensures NotAfterAny(m, sort, c, Place1(m, sort, d, docs))
  {
    if docs != [] && DocAfter(m, sort, d, docs[0]) {
      Place1NotAfter(m, sort, c, d, docs[1..]);
    }
  }

  lemma {:induction false} Place1Sorted(m: Server, sort: Sort, d: Document, docs: seq<Document>)
    requires Sorted(m, sort, docs)
    ensures Sorted(m, sort, Place1(m, sort, d, docs))
  {
    if docs == [] {
    } else if !DocAfter(m, sort, d, docs[0]) {
      forall j | 0 <= j < |docs| ensures !DocAfter(m, sort, d, docs[j]) {
        if j > 0 { NotAfterTransitive(m, sort, d, docs[0], docs[j]); }
      }
    } else {
      Place1Sorted(m, sort, d, docs[1..]);
      RowAfterTotal(m, sort, RowOf(sort, d), RowOf(sort, docs[0]));
      Place1NotAfter(m, sort, docs[0], d, docs[1..]);
    }
  }

  lemma {:induction false} SortDocsSorted(m: Server, sort: Sort, docs: seq<Document>)
    ensures Sorted(m, sort, SortDocs(m, sort, docs))
  {
    if docs != [] {
      SortDocsSorted(m, sort, docs[1..]);
      Place1Sorted(m, sort, docs[0], SortDocs(m, sort, docs[1..]));
    }
  }

  lemma {:induction false} SortDocsPermutes(m: Server, sort: Sort, docs: seq<Document>)
    ensures multiset(SortDocs(m, sort, docs)) == multiset(docs)
  {
    if docs != [] {
      SortDocsPermutes(m, sort, docs[1..]);
      Place1Permutes(m, sort, docs[0], SortDocs(m, sort, docs[1..]));
      assert docs == [docs[0]] + docs[1..];
    }
  }

  /** The server's sort is a sorted permutation. */
  lemma SortDocsSorts(m: Server, sort: Sort, docs: seq<Document>)
    ensures Sorted(m, sort, SortDocs(m, sort, docs))
    ensures multiset(SortDocs(m, sort, docs)) == multiset(docs)
  {
    SortDocsSorted(m, sort, docs);
    SortDocsPermutes(m, sort, docs);
  }

  // ---- filtering and sorting commute ----

  lemma {:induction false} KeepPlace1(m: Server, f: Filter, sort: Sort, d: Document, docs: seq<Document>)
    requires Sorted(m, sort, docs)
    ensures Keep(m, f, Place1(m, sort, d, docs)) ==
            if Matches(m, f, d) then Place1(m, sort, d, Keep(m, f, docs)) else Keep(m, f, docs)
  {
    if docs == [] {
    } else if !DocAfter(m, sort, d, docs[0]) {
      assert Place1(m, sort, d, docs)[1..] == docs;
      KeepIsBelow(m, f, sort, d, docs);
    } else {
      KeepPlace1(m, f, sort, d, docs[1..]);
      assert Place1(m, sort, d, docs)[1..] == Place1(m, sort, d, docs[1..]);
      if Matches(m, f, docs[0]) {
        assert Keep(m, f, docs)[1..] == Keep(m, f, docs[1..]);
      } else {
        assert Keep(m, f, docs) == Keep(m, f, docs[1..]);
      }
    }
  }

  lemma {:induction false} KeepIsBelow(m: Server, f: Filter, sort: Sort, d: Document, docs: seq<Document>)
    requires Sorted(m, sort, docs) && docs != [] && !DocAfter(m, sort, d, docs[0])
    ensures Keep(m, f, docs) == [] || !DocAfter(m, sort, d, Keep(m, f, docs)[0])
  {
    if !Matches(m, f, docs[0]) && |docs| > 1 {
      NotAfterTransitive(m, sort, d, docs[0], docs[1]);
      KeepIsBelow(m, f, sort, d, docs[1..]);
      assert Keep(m, f, docs) == Keep(m, f, docs[1..]);
    }
  }

  lemma {:induction false} KeepSortDocs(m: Server, f: Filter, sort: Sort, docs: seq<Document>)
    ensures SortDocs(m, sort, Keep(m, f, docs)) == Keep(m, f, SortDocs(m, sort, docs))
  {
    if docs != [] {
      KeepSortDocs(m, f, sort, docs[1..]);
      SortDocsSorts(m, sort, docs[1..]);
      KeepPlace1(m, f, sort, docs[0], SortDocs(m, sort, docs[1..]));
      if Matches(m, f, docs[0]) {
        assert Keep(m, f, docs)[1..] == Keep(m, f, docs[1..]);
      } else {
        assert Keep(m, f, docs) == Keep(m, f, docs[1..]);
      }
    }
  }

  lemma {:induction false} KeepAnd(m: Server, f: Filter, g: Filter, docs: seq<Document>)
    ensures Keep(m, And([f, g]), docs) == Keep(m, g, Keep(m, f, docs))
  {
    if docs != [] {
      KeepAnd(m, f, g, docs[1..]);
      assert Matches(m, And([f, g]), docs[0]) <==> Matches(m, f, docs[0]) && Matches(m, g, docs[0]) by {
        assert [f, g][0] == f && [f, g][1] == g;
      }
      if Matches(m, f, docs[0]) {
        assert Keep(m, f, docs)[1..] == Keep(m, f, docs[1..]);
      } else {
        assert Keep(m, f, docs) == Keep(m, f, docs[1..]);
      }
    }
  }

  lemma {:induction false} KeepAll(m: Server, docs: seq<Document>)
    ensures Keep(m, Fields([]), docs) == docs
  {
    if docs != [] {
      KeepAll(m, docs[1..]);
    }
  }

  lemma {:induction false} KeepSuffix(m: Server, f: Filter, docs: seq<Document>, p: nat)
    requires p <= |docs|
    requires forall i :: 0 <= i < |docs| ==> (Matches(m, f, docs[i]) <==> i >= p)
    ensures Keep(m, f, docs) == docs[p..]
  {
    if docs != [] {
      KeepSuffix(m, f, docs[1..], if p == 0 then 0 else p - 1);
    }
  }

  // ---- what makes a collection pageable ----

  /** The matching documents in sort order: the unpaged result. */
  function Scan(m: Server, stored: seq<Document>, user: Filter, sort: Sort): seq<Document> {
    SortDocs(m, sort, Keep(m, user, stored))
  }

  predicate IdsDiffer(m: Server, docs: seq<Document>) {
    forall i, j :: 0 <= i < j < |docs| ==> !Tie(m, SortValue(Get(docs[i], "_id")), SortValue(Get(docs[j], "_id")))
  }

  /** The preconditions of a complete walk, on the unpaged result: `_id`s differ, sort columns hold
      values that are compared by value and that the code reads as the server does, and the columns
      whose fallbacks the mode drops are single-typed. */
  ghost predicate Pageable(m: Server, mode: Mode, sort: Sort, docs: seq<Document>) {
    IdsDiffer(m, docs) &&
    (forall i :: 0 <= i < |docs| ==> Plain(RowOf(sort, docs[i])) && ReadsTrueRow(RowOf(sort, docs[i]))) &&
    (forall i, j :: 0 <= i < |docs| && 0 <= j < |docs| ==>
       SingleTyped(sort, mode, RowOf(sort, docs[i]), RowOf(sort, docs[j])))
  }

  lemma ScanStrict(m: Server, mode: Mode, sort: Sort, docs: seq<Document>, i: nat, j: nat)
    requires Sorted(m, sort, docs) && IdsDiffer(m, docs) && i < |docs| && j < |docs|
    requires exists k :: 0 <= k < |sort| && sort[k].field == "_id"
    ensures DocAfter(m, sort, docs[i], docs[j]) <==> i > j
  {
    var a, b := RowOf(sort, docs[i]), RowOf(sort, docs[j]);
    RowAfterTotal(m, sort, a, b);
    if i != j {
      var k :| 0 <= k < |sort| && sort[k].field == "_id";
      assert a[k] == SortValue(Get(docs[i], "_id")) && b[k] == SortValue(Get(docs[j], "_id"));
      assert !Tie(m, a[k], b[k]) by {
        if i < j { assert !Tie(m, a[k], b[k]); } else { assert !Tie(m, b[k], a[k]); }
      }
    } else {
      assert RowTie(m, a, b);
    }
  }

  /** A cursor at position `p` selects exactly the rest of the scan. */
  lemma KeysetSelectsRest(m: Server, mode: Mode, sort: Sort, scan: seq<Document>, p: nat)
    requires Distinct(sort) && exists k :: 0 <= k < |sort| && sort[k].field == "_id"
    requires Sorted(m, sort, scan) && Pageable(m, mode, sort, scan) && 0 < p <= |scan|
    ensures Keep(m, KeysetCondition(sort, RowOf(sort, scan[p - 1]), mode), scan) == scan[p..]
  {
    var last := RowOf(sort, scan[p - 1]);
    var keyset := KeysetCondition(sort, last, mode);
    forall i | 0 <= i < |scan| ensures Matches(m, keyset, scan[i]) <==> i >= p {
      KeysetSelectsAt(m, mode, sort, scan, p, i);
    }
    KeepSuffix(m, keyset, scan, p);
  }

  lemma KeysetSelectsAt(m: Server, mode: Mode, sort: Sort, scan: seq<Document>, p: nat, i: nat)
    requires Distinct(sort) && exists k :: 0 <= k < |sort| && sort[k].field == "_id"
    requires Sorted(m, sort, scan) && Pageable(m, mode, sort, scan) && 0 < p <= |scan| && i < |scan|
    ensures Matches(m, KeysetCondition(sort, RowOf(sort, scan[p - 1]), mode), scan[i]) <==> i >= p
  {
    ModesAgree(m, sort, RowOf(sort, scan[p - 1]), mode, scan[i]);
    ScanStrict(m, mode, sort, scan, i, p - 1);
  }

  lemma ConjunctionScan(m: Server, stored: seq<Document>, user: Filter, keyset: Filter, sort: Sort)
    ensures Scan(m, stored, if user == Fields([]) then keyset else And([user, keyset]), sort) ==
            Keep(m, keyset, Scan(m, stored, user, sort))
  {
    KeepAnd(m, user, keyset, stored);
    KeepAll(m, stored);
    KeepSortDocs(m, keyset, sort, Keep(m, user, stored));
  }

  /** A cursor at position `p` selects exactly the rest of the scan. */
  lemma CursorSelectsRest(m: Server, stored: seq<Document>, mode: Mode, user: Filter, sort: Sort,
                          scan: seq<Document>, cur: Cursor, p: nat)
    requires Distinct(sort) && exists k :: 0 <= k < |sort| && sort[k].field == "_id"
    requires scan == Scan(m, stored, user, sort) && Pageable(m, mode, sort, scan) && 0 < p <= |scan|
    requires cur.sort == sort && cur.last == RowOf(sort, scan[p - 1])
    ensures Scan(m, stored, BuildFilter(user, Some(cur), mode), sort) == scan[p..]
  {
    SortDocsSorts(m, sort, Keep(m, user, stored));
    ConjunctionScan(m, stored, user, KeysetCondition(sort, cur.last, mode), sort);
    KeysetSelectsRest(m, mode, sort, scan, p);
  }

  // ---- one page ----

  function Views(proj: Option<Projection>, docs: seq<Document>): (r: seq<Document>)
    ensures |r| == |docs| && forall i {:trigger r[i]} :: 0 <= i < |r| ==> r[i] == View(proj, docs[i])
  {
    seq(|docs|, i requires 0 <= i < |docs| => View(proj, docs[i]))
  }

  /** The cursor that continues after the first `p` documents. */
  function CursorAt(req: Request, sort: Sort, scan: seq<Document>, p: nat): Option<Cursor>
    requires p <= |scan|
  {
    if p == 0 then None else Some(NextCursor(req, sort, scan[p - 1]))
  }

  ghost predicate WellPosed(m: Server, stored: seq<Document>, mode: Mode, req: Request) {
    var sort := NormalizeSort(req.sort);
    Distinct(req.sort) && Pageable(m, mode, sort, Scan(m, stored, req.filter, sort)) &&
    (req.projection.Some? ==> "_id" !in req.projection.value.fields)
  }

  predicate PlainRows(sort: Sort, docs: seq<Document>) {
    forall i :: 0 <= i < |docs| ==> Plain(RowOf(sort, docs[i]))
  }

  /** A page cut from the rest of the scan: projected, guarded, stripped. */
  lemma RespondShows(req: Request, sort: Sort, limit: u32, truncated: bool, rest: seq<Document>)
    requires PlainRows(sort, rest)
    requires limit > 0 && (req.projection.Some? ==> "_id" !in req.projection.value.fields)
    ensures var more := |rest| > limit;
            Respond(req, sort, limit, truncated, Project(MongoProjection(req.projection, sort), Take(rest, limit + 1))) ==
            Ok(Page(Views(req.projection, Take(rest, limit)),
                    if more then Some(NextCursor(req, sort, rest[limit - 1])) else None, more, truncated, limit))
  {
    var mp := MongoProjection(req.projection, sort);
    var shown := Take(rest, limit);
    var docs := Project(mp, shown);
    assert Take(Project(mp, Take(rest, limit + 1)), limit) == docs;
    ShownDocs(req.projection, sort, shown);
    NoArrays(req.projection, sort, shown);
    assert shown != [] ==> shown[|shown| - 1] == rest[|shown| - 1];
  }

  /** What is shown of projected documents, and the rows their cursor would hold. */
  lemma ShownDocs(proj: Option<Projection>, sort: Sort, shown: seq<Document>)
    requires proj.Some? ==> "_id" !in proj.value.fields
    ensures var docs := Project(MongoProjection(proj, sort), shown);
            StripAll(docs, StripFields(proj, sort)) == Views(proj, shown) &&
            forall i :: 0 <= i < |docs| ==> RowOf(sort, docs[i]) == RowOf(sort, shown[i])
  {
    var mp, strip := MongoProjection(proj, sort), StripFields(proj, sort);
    var docs := Project(mp, shown);
    forall i | 0 <= i < |docs|
      ensures RowOf(sort, docs[i]) == RowOf(sort, shown[i]) && Strip(docs[i], strip) == View(proj, shown[i])
    {
      BoundarySurvives(proj, sort, shown[i]);
      PipelineShowsView(proj, sort, shown[i]);
    }
  }

  lemma NoArrays(proj: Option<Projection>, sort: Sort, shown: seq<Document>)
    requires PlainRows(sort, shown) && (proj.Some? ==> "_id" !in proj.value.fields)
    ensures !HasArray(sort, Project(MongoProjection(proj, sort), shown))
  {
    var docs := Project(MongoProjection(proj, sort), shown);
    ShownDocs(proj, sort, shown);
    forall i, k | 0 <= i < |docs| && 0 <= k < |sort| ensures !RowOf(sort, docs[i])[k].Array? {
      assert !Odd(RowOf(sort, shown[i])[k]);
    }
  }

  /** What varies from page to page: the requested limit and the enforced one. */
  datatype Turn = Turn(limit: Option<u32>, enforced: u32) {
    predicate Positive() {
      enforced > 0 && limit != Some(0)
    }

    /** How many documents a page may hold: the enforced limit, or fewer when fewer are asked for. */
    function Effective(): nat {
      if limit.Some? then Least(limit.value, enforced) else enforced
    }
  }

  /** The HTTP endpoint as a client sees it. */
  type Endpoint = (Request, u32) -> Result<Page, ApiError>

  ghost predicate Implements(serve: Endpoint, m: Server, stored: seq<Document>, mode: Mode) {
    forall req: Request, enforced: u32 {:trigger FindDocs(m, stored, mode, req, enforced)} ::
      serve(req, enforced) == FindDocs(m, stored, mode, req, enforced)
  }

  /** The request that continues at position `p`. */
  function At(req: Request, sort: Sort, scan: seq<Document>, turn: Turn, p: nat): Request
    requires p <= |scan|
  {
    req.(limit := turn.limit, cursor := CursorAt(req, sort, scan, p))
  }

  /** The endpoint answers position `p` with the next documents shown, and with a cursor at the new
      position unless the scan is exhausted. */
  ghost predicate ServesSlice(serve: Endpoint, req: Request, sort: Sort, scan: seq<Document>, shown: seq<Document>,
                              turn: Turn, p: nat)
    requires p <= |scan| == |shown|
  {
    var limit := turn.Effective();
    var q := Least(p + limit, |scan|);
    var page := serve(At(req, sort, scan, turn, p), turn.enforced);
    page.Ok? && page.value.documents == shown[p..q] &&
    page.value.hasMore == (p + limit < |scan|) &&
    page.value.next == if p + limit < |scan| then CursorAt(req, sort, scan, q) else None
  }

  lemma FoundIsRest(m: Server, stored: seq<Document>, mode: Mode, req: Request, sort: Sort, scan: seq<Document>,
                    turn: Turn, p: nat)
    requires WellPosed(m, stored, mode, req) && sort == NormalizeSort(req.sort)
    requires scan == Scan(m, stored, req.filter, sort) && p <= |scan|
    ensures SortOf(At(req, sort, scan, turn, p)) == sort
    ensures Found(m, stored, mode, At(req, sort, scan, turn, p), turn.Effective()) ==
            Project(MongoProjection(req.projection, sort), Take(scan[p..], turn.Effective() + 1))
  {
    if p > 0 {
      CursorSelectsRest(m, stored, mode, req.filter, sort, scan, NextCursor(req, sort, scan[p - 1]), p);
    } else {
      assert scan[p..] == scan;
    }
  }

  lemma CursorAtFits(req: Request, sort: Sort, scan: seq<Document>, turn: Turn, p: nat)
    requires sort == NormalizeSort(req.sort) && 0 < p <= |scan|
    ensures CursorFits(At(req, sort, scan, turn, p), NextCursor(req, sort, scan[p - 1]))
  {
  }

  /** The answer shows the first `limit` documents of `rest` and continues after them. */
  ghost predicate Shows(answer: Result<Page, ApiError>, req: Request, sort: Sort, limit: nat, rest: seq<Document>)
    requires limit > 0
  {
    answer.Ok? && answer.value.documents == Views(req.projection, Take(rest, limit)) &&
    answer.value.hasMore == (|rest| > limit) &&
    answer.value.next == if |rest| > limit then Some(NextCursor(req, sort, rest[limit - 1])) else None
  }

  /** A request that passes the checks is answered from what was found. */
  lemma Answered(m: Server, stored: seq<Document>, mode: Mode, req: Request, enforced: u32, sort: Sort, rest: seq<Document>)
    requires req.limit != Some(0) && enforced > 0 && (req.cursor.Some? ==> CursorFits(req, req.cursor.value))
    requires req.projection.Some? ==> "_id" !in req.projection.value.fields
    requires PlainRows(sort, rest)
    requires SortOf(req) == sort
    requires Found(m, stored, mode, req, EffectiveLimit(req.limit, enforced)) ==
             Project(MongoProjection(req.projection, sort), Take(rest, EffectiveLimit(req.limit, enforced) + 1))
    ensures Shows(FindDocs(m, stored, mode, req, enforced), req, sort, EffectiveLimit(req.limit, enforced), rest)
  {
    RespondShows(req, sort, EffectiveLimit(req.limit, enforced), Truncated(req.limit, enforced), rest);
  }

  lemma ShowsSlice(serve: Endpoint, req: Request, sort: Sort, scan: seq<Document>, turn: Turn, p: nat)
    requires p <= |scan| && turn.Positive()
    requires Shows(serve(At(req, sort, scan, turn, p), turn.enforced), At(req, sort, scan, turn, p), sort,
                   turn.Effective(), scan[p..])
    ensures ServesSlice(serve, req, sort, scan, Views(req.projection, scan), turn, p)
  {
    assert Views(req.projection, Take(scan[p..], turn.Effective())) ==
           Views(req.projection, scan)[p..Least(p + turn.Effective(), |scan|)];
  }

  lemma EffectiveIs(turn: Turn)
    ensures EffectiveLimit(turn.limit, turn.enforced) == turn.Effective()
  {
  }

  lemma AnswerAt(m: Server, stored: seq<Document>, mode: Mode, req: Request, sort: Sort, scan: seq<Document>, turn: Turn, p: nat)
    requires WellPosed(m, stored, mode, req) && turn.Positive() && sort == NormalizeSort(req.sort)
    requires scan == Scan(m, stored, req.filter, sort) && p <= |scan|
    ensures Shows(FindDocs(m, stored, mode, At(req, sort, scan, turn, p), turn.enforced), At(req, sort, scan, turn, p), sort,
                  turn.Effective(), scan[p..])
  {
    FoundIsRest(m, stored, mode, req, sort, scan, turn, p);
    if p > 0 {
      CursorAtFits(req, sort, scan, turn, p);
    }
    EffectiveIs(turn);
    Answered(m, stored, mode, At(req, sort, scan, turn, p), turn.enforced, sort, scan[p..]);
  }

  lemma PageIsSlice(serve: Endpoint, m: Server, stored: seq<Document>, mode: Mode, req: Request, sort: Sort,
                    scan: seq<Document>, turn: Turn, p: nat)
    requires Implements(serve, m, stored, mode)
    requires WellPosed(m, stored, mode, req) && turn.Positive() && sort == NormalizeSort(req.sort)
    requires scan == Scan(m, stored, req.filter, sort) && p <= |scan|
    ensures ServesSlice(serve, req, sort, scan, Views(req.projection, scan), turn, p)
  {
    AnswerAt(m, stored, mode, req, sort, scan, turn, p);
    ShowsSlice(serve, req, sort, scan, turn, p);
  }

  // ---- the walk ----

  predicate Positive(turns: seq<Turn>) {
    forall i :: 0 <= i < |turns| ==> turns[i].Positive()
  }

  function Total(turns: seq<Turn>): nat {
    if turns == [] then 0 else turns[0].Effective() + Total(turns[1..])
  }

  datatype Walk = Walked(documents: seq<Document>, finished: bool) | Failed(error: ApiError)

  /** A client following `next_cursor`, one request per turn. */
  function Follow(serve: Endpoint, req: Request, turns: seq<Turn>): Walk
    decreases |turns|
  {
    if turns == [] then Walked([], false)
    else
      match serve(req.(limit := turns[0].limit), turns[0].enforced)
      case Err(e) => Failed(e)
      case Ok(page) =>
        if page.next.None? then Walked(page.documents, true)
        else
          match Follow(serve, req.(cursor := page.next), turns[1..])
          case Failed(e) => Failed(e)
          case Walked(docs, finished) => Walked(page.documents + docs, finished)
  }

  ghost predicate ServesScan(serve: Endpoint, req: Request, sort: Sort, scan: seq<Document>, shown: seq<Document>)
    requires |scan| == |shown|
  {
    forall q: nat, turn: Turn :: q <= |scan| && turn.Positive() ==> ServesSlice(serve, req, sort, scan, shown, turn, q)
  }

  lemma CursorIrrelevant(serve: Endpoint, req: Request, cursor: Option<Cursor>, sort: Sort, scan: seq<Document>,
                         shown: seq<Document>)
    requires |scan| == |shown| && ServesScan(serve, req, sort, scan, shown)
    ensures ServesScan(serve, req.(cursor := cursor), sort, scan, shown)
  {
    var next := req.(cursor := cursor);
    forall q: nat, turn: Turn | q <= |scan| && turn.Positive()
      ensures ServesSlice(serve, next, sort, scan, shown, turn, q)
    {
      assert ServesSlice(serve, req, sort, scan, shown, turn, q);
      assert At(next, sort, scan, turn, q) == At(req, sort, scan, turn, q);
    }
  }

  /** Following any endpoint that serves slices reads the scan in order. */
  lemma {:induction false} FollowReadsScan(serve: Endpoint, req: Request, sort: Sort, scan: seq<Document>,
                                           shown: seq<Document>, turns: seq<Turn>, p: nat)
    requires |scan| == |shown| && ServesScan(serve, req, sort, scan, shown)
    requires Positive(turns) && p <= |scan| && req.cursor == CursorAt(req, sort, scan, p)
    ensures Follow(serve, req, turns) ==
            Walked(shown[p..Least(p + Total(turns), |scan|)], turns != [] && p + Total(turns) >= |scan|)
    decreases |turns|
  {
    if turns != [] {
      var limit := turns[0].Effective();
      FollowStep(serve, req, sort, scan, shown, turns, p);
      if p + limit < |scan| {
        var cursor := CursorAt(req, sort, scan, p + limit);
        CursorIrrelevant(serve, req, cursor, sort, scan, shown);
        FollowReadsScan(serve, req.(cursor := cursor), sort, scan, shown, turns[1..], p + limit);
        SliceSplits(shown, p, p + limit, Least(p + Total(turns), |scan|));
      }
    }
  }

  function Prefixed(docs: seq<Document>, rest: Walk): Walk {
    match rest case Failed(e) => Failed(e) case Walked(more, finished) => Walked(docs + more, finished)
  }

  /** One request of the walk. */
  lemma FollowStep(serve: Endpoint, req: Request, sort: Sort, scan: seq<Document>, shown: seq<Document>, turns: seq<Turn>,
                   p: nat)
    requires |scan| == |shown| && ServesScan(serve, req, sort, scan, shown)
    requires turns != [] && Positive(turns) && p <= |scan| && req.cursor == CursorAt(req, sort, scan, p)
    ensures var next := p + turns[0].Effective();
            Follow(serve, req, turns) ==
            if next >= |scan| then Walked(shown[p..|scan|], true)
            else Prefixed(shown[p..next], Follow(serve, req.(cursor := CursorAt(req, sort, scan, next)), turns[1..]))
  {
    assert ServesSlice(serve, req, sort, scan, shown, turns[0], p);
    assert At(req, sort, scan, turns[0], p) == req.(limit := turns[0].limit);
  }

  lemma SliceSplits<T>(s: seq<T>, a: nat, b: nat, c: nat)
    requires a <= b <= c <= |s|
    ensures s[a..b] + s[b..c] == s[a..c]
  {
  }

  /** Whole-walk equivalence: for every collection, filter, sort, projection and sequence of positive
      page limits, the concatenated pages are the first `Total` documents of the unpaged scan, each once
      and in order, and the walk has ended exactly when the limits add up to the scan's length. */
  lemma WalkIsScan(serve: Endpoint, m: Server, stored: seq<Document>, mode: Mode, req: Request, turns: seq<Turn>,
                   scan: seq<Document>)
    requires Implements(serve, m, stored, mode)
    requires WellPosed(m, stored, mode, req) && Positive(turns) && req.cursor.None?
    requires scan == Scan(m, stored, req.filter, NormalizeSort(req.sort))
    ensures Follow(serve, req, turns) ==
            Walked(Take(Views(req.projection, scan), Total(turns)), turns != [] && Total(turns) >= |scan|)
  {
    var sort, shown := NormalizeSort(req.sort), Views(req.projection, scan);
    ServesAll(serve, m, stored, mode, req, sort, scan);
    FollowAll(serve, req, sort, scan, shown, turns);
  }

  lemma FollowAll(serve: Endpoint, req: Request, sort: Sort, scan: seq<Document>, shown: seq<Document>, turns: seq<Turn>)
    requires |scan| == |shown| && ServesScan(serve, req, sort, scan, shown) && Positive(turns) && req.cursor.None?
    ensures Follow(serve, req, turns) == Walked(Take(shown, Total(turns)), turns != [] && Total(turns) >= |scan|)
  {
    FollowReadsScan(serve, req, sort, scan, shown, turns, 0);
    TakeIsSlice(shown, Total(turns));
  }

  lemma ServesAll(serve: Endpoint, m: Server, stored: seq<Document>, mode: Mode, req: Request, sort: Sort, scan: seq<Document>)
    requires Implements(serve, m, stored, mode) && WellPosed(m, stored, mode, req)
    requires sort == NormalizeSort(req.sort) && scan == Scan(m, stored, req.filter, sort)
    ensures ServesScan(serve, req, sort, scan, Views(req.projection, scan))
  {
    forall q: nat, turn: Turn | q <= |scan| && turn.Positive()
      ensures ServesSlice(serve, req, sort, scan, Views(req.projection, scan), turn, q)
    {
      PageIsSlice(serve, m, stored, mode, req, sort, scan, turn, q);
    }
  }

  lemma TakeIsSlice<T>(s: seq<T>, n: nat)
    ensures Take(s, n) == s[0..Least(0 + n, |s|)]
  {
  }

  /** The walk in `IdOnly` mode: nothing is lost on client-chosen sort fields of any mix of types, as long as the
      `_id`s are of one. */
  lemma IdOnlyWalk(serve: Endpoint, m: Server, stored: seq<Document>, req: Request, turns: seq<Turn>, scan: seq<Document>)
    requires Implements(serve, m, stored, IdOnly) && Positive(turns) && req.cursor.None? && Distinct(req.sort)
    requires req.projection.Some? ==> "_id" !in req.projection.value.fields
    requires scan == Scan(m, stored, req.filter, NormalizeSort(req.sort)) && IdsDiffer(m, scan)
    requires forall i :: 0 <= i < |scan| ==>
               Plain(RowOf(NormalizeSort(req.sort), scan[i])) && ReadsTrueRow(RowOf(NormalizeSort(req.sort), scan[i]))
    requires forall i, j :: 0 <= i < |scan| && 0 <= j < |scan| ==>
               BracketOf(SortValue(Get(scan[i], "_id"))) == BracketOf(SortValue(Get(scan[j], "_id")))
    ensures Follow(serve, req, turns) ==
            Walked(Take(Views(req.projection, scan), Total(turns)), turns != [] && Total(turns) >= |scan|)
  {
    WalkIsScan(serve, m, stored, IdOnly, req, turns, scan);
  }

  /** Termination: no walk needs more pages than the scan has documents (one page for an empty scan). */
  lemma {:induction false} WalkEnds(turns: seq<Turn>)
    requires Positive(turns)
    ensures Total(turns) >= |turns|
  {
    if turns != [] {
      WalkEnds(turns[1..]);
    }
  }

  /** The scan is the filtered collection, permuted into sort order. */
  lemma ScanIsSortedSelection(m: Server, stored: seq<Document>, user: Filter, sort: Sort)
    ensures Sorted(m, sort, Scan(m, stored, user, sort))
    ensures multiset(Scan(m, stored, user, sort)) == multiset(Keep(m, user, stored))
  {
    SortDocsSorts(m, sort, Keep(m, user, stored));
  }
}
