/** What a client may rely on in an answer of GET /q, read off its own request. */
module PageAnswers {
  import opened Prelude
  import opened BsonValues
  import opened Mongo
  import opened Keyset
  import opened KeysetMeaning
  import opened Projections
  import opened Paging
  import opened PageWalk

  /** The smaller of the requested and the enforced limit. */
  predicate FitsRequest(limit: u32, requested: Option<u32>, enforced: u32) {
    limit <= enforced && (requested.Some? ==> limit <= requested.value) &&
    (limit == enforced || requested == Some(limit))
  }

  /** A page never holds more documents than were asked for or are enforced, and holds as many as it may while there
      are more; `truncated` tells a client that it was given less than it asked for. */
  lemma AnswerFits(m: Server, stored: seq<Document>, mode: Mode, req: Request, enforced: u32)
    requires FindDocs(m, stored, mode, req, enforced).Ok?
    ensures var page := FindDocs(m, stored, mode, req, enforced).value;
            FitsRequest(page.limit, req.limit, enforced) &&
            |page.documents| <= page.limit && (page.hasMore ==> |page.documents| == page.limit) &&
            (enforced < 0xFFFF_FFFF ==> (page.truncated <==> req.limit.None? || req.limit.value > enforced))
  {
  }

  /** What there is to answer from: the rest of the scan behind the request's cursor. */
  function Rest(m: Server, stored: seq<Document>, mode: Mode, req: Request): seq<Document>
    requires req.cursor.Some? ==> |req.cursor.value.last| == |req.cursor.value.sort|
  {
    Scan(m, stored, BuildFilter(req.filter, req.cursor, mode), SortOf(req))
  }

  /** An answer goes on exactly when more than a page is left, and then carries a cursor. */
  lemma AnswerGoesOn(m: Server, stored: seq<Document>, mode: Mode, req: Request, enforced: u32)
    requires FindDocs(m, stored, mode, req, enforced).Ok? && enforced > 0
    ensures var page := FindDocs(m, stored, mode, req, enforced).value;
            (page.hasMore <==> |Rest(m, stored, mode, req)| > page.limit) && (page.next.Some? <==> page.hasMore)
  {
  }

  /** A cursor is taken up again exactly by requests for the same collection that name no sort or the same one. */
  lemma CursorAcceptedIff(m: Server, stored: seq<Document>, mode: Mode, req: Request, enforced: u32,
                          now: seq<Document>, later: Request, enforced': u32)
    requires FindDocs(m, stored, mode, req, enforced).Ok?
    requires FindDocs(m, stored, mode, req, enforced).value.next.Some?
    requires later.cursor == FindDocs(m, stored, mode, req, enforced).value.next && later.limit != Some(0)
    ensures FindDocs(m, now, mode, later, enforced') != Err(InvalidCursor) <==>
            later.db == req.db && later.coll == req.coll &&
            (later.sort == [] || NormalizeSort(later.sort) == SortOf(req))
  {
    IssuedCursor(m, stored, mode, req, enforced);
    assert FindDocs(m, now, mode, later, enforced') != Err(InvalidCursor) <==> CursorFits(later, later.cursor.value);
  }

  /** The cursor of an answer names the request's collection and the sort it was answered in. */
  lemma IssuedCursor(m: Server, stored: seq<Document>, mode: Mode, req: Request, enforced: u32)
    requires FindDocs(m, stored, mode, req, enforced).Ok?
    requires FindDocs(m, stored, mode, req, enforced).value.next.Some?
    ensures var cur := FindDocs(m, stored, mode, req, enforced).value.next.value;
            cur.version == 1 && cur.db == req.db && cur.coll == req.coll && cur.sort == SortOf(req) != [] &&
            |cur.last| == |cur.sort|
  {
    SortNotEmpty(req);
    var found := Found(m, stored, mode, req, EffectiveLimit(req.limit, enforced));
    RespondCursor(req, SortOf(req), EffectiveLimit(req.limit, enforced), Truncated(req.limit, enforced), found);
  }

  lemma SortNotEmpty(req: Request)
    requires req.cursor.Some? ==> CursorFits(req, req.cursor.value)
    ensures SortOf(req) != []
  {
  }

  lemma RespondCursor(req: Request, sort: Sort, limit: u32, truncated: bool, found: seq<Document>)
    requires Respond(req, sort, limit, truncated, found).Ok? && Respond(req, sort, limit, truncated, found).value.next.Some?
    ensures var cur := Respond(req, sort, limit, truncated, found).value.next.value;
            cur.version == 1 && cur.db == req.db && cur.coll == req.coll && cur.sort == sort && |cur.last| == |sort|
  {
  }

  /** A cursor carries its sort: a request that repeats it, or names none, gets the same answer. */
  lemma CursorCarriesSort(m: Server, stored: seq<Document>, mode: Mode, req: Request, sort: Sort, enforced: u32)
    requires req.cursor.Some? && req.sort == [] && NormalizeSort(sort) == req.cursor.value.sort
    ensures FindDocs(m, stored, mode, req.(sort := sort), enforced) == FindDocs(m, stored, mode, req, enforced)
  {
    var again := req.(sort := sort);
    assert CursorFits(again, req.cursor.value) <==> CursorFits(req, req.cursor.value);
    if CursorFits(req, req.cursor.value) && req.limit != Some(0) {
      var limit := EffectiveLimit(req.limit, enforced);
      assert Found(m, stored, mode, again, limit) == Found(m, stored, mode, req, limit);
      SameAnswer(req, again, SortOf(req), limit, Truncated(req.limit, enforced), Found(m, stored, mode, req, limit));
    }
  }

  lemma SameAnswer(a: Request, b: Request, sort: Sort, limit: u32, truncated: bool, found: seq<Document>)
    requires a.db == b.db && a.coll == b.coll && a.projection == b.projection
    ensures Respond(a, sort, limit, truncated, found) == Respond(b, sort, limit, truncated, found)
  {
  }

  /** Some of the first `n` documents holds an array in a sort field. */
  predicate ArrayAmong(sort: Sort, docs: seq<Document>, n: nat) {
    exists i, k :: 0 <= i < |docs| && i < n && 0 <= k < |sort| &&
                   Get(docs[i], sort[k].field).Some? && Get(docs[i], sort[k].field).value.Array?
  }

  /** A page is refused exactly when its continuation would start from, or pass over, an array in a sort field:
      there is more to come and the page shows such a document. No projection hides it. */
  lemma ArraysRefusedIff(m: Server, stored: seq<Document>, mode: Mode, req: Request, enforced: u32)
    requires req.limit != Some(0) && (req.cursor.Some? ==> CursorFits(req, req.cursor.value))
    ensures var limit := if req.limit.Some? then Least(req.limit.value, enforced) else enforced;
            FindDocs(m, stored, mode, req, enforced) == Err(BadRequest) <==>
            |Rest(m, stored, mode, req)| > limit && ArrayAmong(SortOf(req), Rest(m, stored, mode, req), limit)
  {
    var limit: nat := EffectiveLimit(req.limit, enforced);
    var sort, rest := SortOf(req), Rest(m, stored, mode, req);
    var found := Found(m, stored, mode, req, limit);
    assert found == Project(MongoProjection(req.projection, sort), Take(rest, limit + 1));
    ArraysShown(req.projection, sort, rest, limit);
  }

  lemma ArraysShown(proj: Option<Projection>, sort: Sort, rest: seq<Document>, limit: nat)
    ensures HasArray(sort, Take(Project(MongoProjection(proj, sort), Take(rest, limit + 1)), limit)) <==>
            ArrayAmong(sort, rest, limit)
  {
    var docs := Take(Project(MongoProjection(proj, sort), Take(rest, limit + 1)), limit);
    forall i | 0 <= i < |docs| ensures i < |rest| && i < limit && RowOf(sort, docs[i]) == RowOf(sort, rest[i]) {
      BoundarySurvives(proj, sort, rest[i]);
    }
    if ArrayAmong(sort, rest, limit) {
      var i, k :| 0 <= i < |rest| && i < limit && 0 <= k < |sort| &&
                  Get(rest[i], sort[k].field).Some? && Get(rest[i], sort[k].field).value.Array?;
      assert RowOf(sort, docs[i])[k].Array?;
    }
    if HasArray(sort, docs) {
      var i, k :| 0 <= i < |docs| && 0 <= k < |sort| && RowOf(sort, docs[i])[k].Array?;
      assert RowOf(sort, rest[i])[k] == SortValue(Get(rest[i], sort[k].field));
    }
  }
}
