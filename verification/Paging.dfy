/** The page pipeline of GET /q (find_docs in src/routes_q.rs over src/dbq.rs): sort choice, filter,
    find with limit + 1, array guard, next cursor, projection. */
module Paging {
  import opened Prelude
  import opened BsonValues
  import opened Mongo
  import opened Keyset
  import opened Projections

  // ---- sorting ----

  /** `normalize_sort`: the `_id` tiebreaker takes the direction of the last key. */
  function NormalizeSort(sort: Sort): (r: Sort)
    ensures exists k :: 0 <= k < |r| && r[k].field == "_id"
    ensures Distinct(sort) ==> Distinct(r)
    ensures r == sort || (|r| == |sort| + 1 && sort <= r && (forall k :: 0 <= k < |sort| ==> sort[k].field != "_id") &&
                          r[|sort|].dir == if sort == [] then 1 else sort[|sort| - 1].dir)
  {
    if exists k :: 0 <= k < |sort| && sort[k].field == "_id" then sort
    else
      var r := sort + [SortKey("_id", if sort == [] then 1 else sort[|sort| - 1].dir)];
      assert r[|sort|].field == "_id";
      r
  }

  predicate DocAfter(m: Server, sort: Sort, a: Document, b: Document) {
    RowAfter(m, sort, RowOf(sort, a), RowOf(sort, b))
  }

  /** The server's sort, as insertion into a sorted list. */
  function Place1(m: Server, sort: Sort, d: Document, sorted: seq<Document>): seq<Document> {
    if sorted == [] || !DocAfter(m, sort, d, sorted[0]) then [d] + sorted
    else [sorted[0]] + Place1(m, sort, d, sorted[1..])
  }

  function SortDocs(m: Server, sort: Sort, docs: seq<Document>): seq<Document> {
    if docs == [] then [] else Place1(m, sort, docs[0], SortDocs(m, sort, docs[1..]))
  }

  function Keep(m: Server, f: Filter, docs: seq<Document>): seq<Document> {
    if docs == [] then []
    else (if Matches(m, f, docs[0]) then [docs[0]] else []) + Keep(m, f, docs[1..])
  }

  function Take<T>(s: seq<T>, n: nat): seq<T> {
    if n <= |s| then s[..n] else s
  }

  /** `find(filter).sort(sort).limit(n)`. */
  function Find(m: Server, stored: seq<Document>, f: Filter, sort: Sort, n: nat): seq<Document> {
    Take(SortDocs(m, sort, Keep(m, f, stored)), n)
  }

  // ---- requests ----

  /** A cursor as the client holds it; the values survive canonical extended JSON unchanged. */
  datatype Cursor = Cursor(version: int, db: string, coll: string, sort: Sort, last: Row)

  datatype Request = Request(db: string, coll: string, filter: Filter, sort: Sort, limit: Option<u32>,
                             cursor: Option<Cursor>, projection: Option<Projection>)

  datatype Page = Page(documents: seq<Document>, next: Option<Cursor>, hasMore: bool, truncated: bool, limit: u32)

  datatype ApiError = InvalidLimit | InvalidCursor | BadRequest

  const NO_LIMIT: u32 := 0xFFFF_FFFF

  /** `Cursor::decode` and the checks of find_docs. */
  predicate CursorFits(req: Request, cur: Cursor) {
    cur.version == 1 && cur.sort != [] && |cur.last| == |cur.sort| &&
    cur.db == req.db && cur.coll == req.coll &&
    (req.sort == [] || NormalizeSort(req.sort) == cur.sort)
  }

  /** `build_filter`: an empty user filter collapses away. */
  function BuildFilter(user: Filter, cursor: Option<Cursor>, mode: Mode): Filter
    requires cursor.Some? ==> |cursor.value.last| == |cursor.value.sort|
  {
    if cursor.None? then user
    else
      var keyset := KeysetCondition(cursor.value.sort, cursor.value.last, mode);
      if user == Fields([]) then keyset else And([user, keyset])
  }

  /** `make_next_cursor`: the boundary row of the last document, missing fields as null. */
  function NextCursor(req: Request, sort: Sort, last: Document): Cursor {
    Cursor(1, req.db, req.coll, sort, RowOf(sort, last))
  }

  /** The guard against array values in sort fields. */
  predicate HasArray(sort: Sort, docs: seq<Document>) {
    exists i, k :: 0 <= i < |docs| && 0 <= k < |sort| && RowOf(sort, docs[i])[k].Array?
  }

  function EffectiveLimit(limit: Option<u32>, enforced: u32): u32 {
    var requested := if limit.Some? then limit.value else NO_LIMIT;
    if requested <= enforced then requested else enforced
  }

  function Truncated(limit: Option<u32>, enforced: u32): bool {
    (if limit.Some? then limit.value else NO_LIMIT) > enforced
  }

  function Project(p: Option<map<string, int>>, docs: seq<Document>): (r: seq<Document>)
    ensures |r| == |docs| && forall i {:trigger r[i]} :: 0 <= i < |r| ==> r[i] == MongoProject(p, docs[i])
  {
    seq(|docs|, i requires 0 <= i < |docs| => MongoProject(p, docs[i]))
  }

  function StripAll(docs: seq<Document>, strip: set<string>): (r: seq<Document>)
    ensures |r| == |docs| && forall i {:trigger r[i]} :: 0 <= i < |r| ==> r[i] == Strip(docs[i], strip)
  {
    seq(|docs|, i requires 0 <= i < |docs| => Strip(docs[i], strip))
  }

  function SortOf(req: Request): Sort {
    if req.cursor.Some? then req.cursor.value.sort else NormalizeSort(req.sort)
  }

  /** What the driver returns: filtered, sorted, cut at limit + 1, projected. */
  function Found(m: Server, stored: seq<Document>, mode: Mode, req: Request, limit: nat): seq<Document>
    requires req.cursor.Some? ==> |req.cursor.value.last| == |req.cursor.value.sort|
  {
    var filter := BuildFilter(req.filter, req.cursor, mode);
    Project(MongoProjection(req.projection, SortOf(req)), Find(m, stored, filter, SortOf(req), limit + 1))
  }

  /** The page made of what was found: array guard, next cursor, strip. */
  function Respond(req: Request, sort: Sort, limit: u32, truncated: bool, found: seq<Document>): Result<Page, ApiError> {
    var docs, hasMore := Take(found, limit), |found| > limit;
    if hasMore && HasArray(sort, docs) then Err(BadRequest)
    else
      var next := if hasMore && docs != [] then Some(NextCursor(req, sort, docs[|docs| - 1])) else None;
      Ok(Page(StripAll(docs, StripFields(req.projection, sort)), next, hasMore, truncated, limit))
  }

  /** find_docs: one page. */
  function FindDocs(m: Server, stored: seq<Document>, mode: Mode, req: Request, enforced: u32): Result<Page, ApiError> {
    if req.limit == Some(0) then Err(InvalidLimit)
    else if req.cursor.Some? && !CursorFits(req, req.cursor.value) then Err(InvalidCursor)
    else
      var limit := EffectiveLimit(req.limit, enforced);
      Respond(req, SortOf(req), limit, Truncated(req.limit, enforced), Found(m, stored, mode, req, limit))
  }

  /** find_page_inner: reads the driver's cursor until one document past the limit was seen. */
  method FindPageInner(found: seq<Document>, limit: nat)
    returns (docs: seq<Document>, hasMore: bool, last: Option<Document>)
    ensures docs == Take(found, limit)
    ensures hasMore <==> |found| > limit
    ensures last == if docs == [] then None else Some(docs[|docs| - 1])
  {
    docs := [];
    var at := 0;
    while at < |found|
      invariant at <= |found| && docs == found[..at] && at <= limit
    {
      docs := docs + [found[at]];
      at := at + 1;
      if |docs| > limit {
        break;
      }
    }
    hasMore := |docs| > limit;
    if hasMore {
      docs := docs[..limit];
    }
    last := if docs == [] then None else Some(docs[|docs| - 1]);
  }
}
