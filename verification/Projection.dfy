/** Client projections of src/dbq.rs: the union sent to Mongo, so that cursors stay computable, and the
    strip that hides the surplus from the output. */
module Projections {
  import opened Prelude
  import opened BsonValues
  import opened Mongo

  datatype Style = Include | Exclude

  datatype Projection = Projection(style: Style, fields: set<string>, excludeId: bool, includeId: bool)

  // ---- parsing ----

  /** A projection value: 0/1/true/false, or anything else. */
  datatype Flag = Flag(on: bool) | Unusable

  datatype Spec = NotAnObject | Object(entries: seq<(string, Flag)>)

  /** Why a spec is refused, InvalidProjection in every case. */
  datatype Refusal = MustBeObject | NestedField | OperatorKey | UnusableValue | MixedStyles

  predicate Nested(key: string) {
    '.' in key
  }

  predicate Operator(key: string) {
    key != "" && key[0] == '$'
  }

  predicate Refused(entry: (string, Flag)) {
    Nested(entry.0) || Operator(entry.0) || entry.1.Unusable?
  }

  /** A field other than `_id` is asked for with `on`. */
  predicate Asks(entries: seq<(string, Flag)>, on: bool) {
    exists i :: 0 <= i < |entries| && entries[i].0 != "_id" && entries[i].1 == Flag(on)
  }

  /** The client's meaning: with an inclusion, or `_id: 1` alone, only the fields set to 1 are wanted;
      otherwise everything except the fields set to 0. */
  predicate Wants(entries: seq<(string, Flag)>, key: string) {
    if Asks(entries, true) || (("_id", Flag(true)) in entries && !Asks(entries, false))
    then (key, Flag(true)) in entries
    else (key, Flag(false)) !in entries
  }

  /** What a parsed projection shows. */
  predicate Visible(p: Projection, key: string) {
    if p.style.Include? then (if key == "_id" then p.includeId else key in p.fields)
    else (if key == "_id" then !p.excludeId else key !in p.fields)
  }

  /** `parse_projection`: refuses exactly the unusable and the mixed specs, and what it accepts shows
      exactly the fields the client wants. */
  method ParseProjection(spec: Spec) returns (r: Result<Option<Projection>, Refusal>)
    requires spec.Object? ==> UniqueKeys(spec.entries)
    ensures spec.NotAnObject? ==> r.Err?
    ensures spec.Object? ==> (r.Err? <==> (exists i :: 0 <= i < |spec.entries| && Refused(spec.entries[i])) ||
                                          (Asks(spec.entries, true) && Asks(spec.entries, false)))
    ensures r.Ok? ==> (r.value.None? <==> spec.entries == [])
    ensures r.Ok? && r.value.Some? ==> forall key :: Visible(r.value.value, key) <==> Wants(spec.entries, key)
    ensures r.Ok? && r.value.Some? ==> "_id" !in r.value.value.fields
  {
    if spec.NotAnObject? {
      return Err(MustBeObject);
    }
    var m := spec.entries;
    if m == [] {
      return Ok(None);
    }
    var style: Option<Style> := None;
    var fields: set<string> := {};
    var excludeId, includeId := false, false;
    for n := 0 to |m|
      invariant forall i :: 0 <= i < n ==> !Refused(m[i])
      invariant Gathered(m[..n], style, fields, excludeId, includeId)
    {
      var k, val := m[n].0, m[n].1;
      if '.' in k {
        assert Refused(m[n]);
        return Err(NestedField);
      }
      if k != "" && k[0] == '$' {
        assert Refused(m[n]);
        return Err(OperatorKey);
      }
      if val.Unusable? {
        assert Refused(m[n]);
        return Err(UnusableValue);
      }
      assert m[..n + 1] == m[..n] + [m[n]];
      GatheredStep(m[..n], m[n], style, fields, excludeId, includeId);
      if k == "_id" {
        if val.on {
          includeId := true;
        } else {
          excludeId := true;
        }
        continue;
      }
      if style.None? {
        style := Some(if val.on then Include else Exclude);
      } else if style.value.Include? != val.on {
        assert m == m[..n + 1] + m[n + 1..];
        AsksStep(m[..n], m[n]);
        AsksMore(m[..n + 1], m[n + 1..]);
        return Err(MixedStyles);
      }
      fields := fields + {k};
    }
    assert m[..|m|] == m;
    var s := if style.Some? then style.value else if excludeId then Exclude else Include;
    GatheredShows(m, style, fields, excludeId, includeId);
    return Ok(Some(Projection(s, fields, excludeId, includeId)));
  }

  /** What the flags of the parsing loop know about the entries read so far. */
  ghost predicate Gathered(m: seq<(string, Flag)>, style: Option<Style>, fields: set<string>, excludeId: bool, includeId: bool) {
    (style == Some(Include) <==> Asks(m, true)) &&
    (style == Some(Exclude) <==> Asks(m, false)) &&
    (includeId <==> ("_id", Flag(true)) in m) &&
    (excludeId <==> ("_id", Flag(false)) in m) &&
    "_id" !in fields &&
    (style.None? ==> fields == {}) &&
    (style.Some? ==> forall k :: k in fields <==> k != "_id" && (k, Flag(style.value.Include?)) in m)
  }

  lemma GatheredStep(m: seq<(string, Flag)>, e: (string, Flag), style: Option<Style>, fields: set<string>,
                     excludeId: bool, includeId: bool)
    requires Gathered(m, style, fields, excludeId, includeId) && e.1.Flag?
    ensures e.0 == "_id" ==> Gathered(m + [e], style, fields, excludeId || !e.1.on, includeId || e.1.on)
    ensures e.0 != "_id" && (style.None? || style.value.Include? == e.1.on) ==>
            Gathered(m + [e], Some(if e.1.on then Include else Exclude), fields + {e.0}, excludeId, includeId)
  {
    AsksStep(m, e);
    assert forall x :: x in m + [e] <==> x in m || x == e;
  }

  lemma GatheredShows(m: seq<(string, Flag)>, style: Option<Style>, fields: set<string>, excludeId: bool, includeId: bool)
    requires UniqueKeys(m) && m != [] && forall i :: 0 <= i < |m| ==> !Refused(m[i])
    requires Gathered(m, style, fields, excludeId, includeId)
    ensures var s := if style.Some? then style.value else if excludeId then Exclude else Include;
            forall key :: Visible(Projection(s, fields, excludeId, includeId), key) <==> Wants(m, key)
  {
    IdOnce(m);
    forall key, on: bool ensures key != "_id" && (key, Flag(on)) in m ==> Asks(m, on) {
      if key != "_id" && (key, Flag(on)) in m {
        var i :| 0 <= i < |m| && m[i] == (key, Flag(on));
        assert m[i].0 != "_id" && m[i].1 == Flag(on);
      }
    }
    assert m[0].0 == "_id" || Asks(m, m[0].1.on);
  }

  lemma AsksStep(m: seq<(string, Flag)>, e: (string, Flag))
    ensures forall on :: Asks(m + [e], on) <==> Asks(m, on) || (e.0 != "_id" && e.1 == Flag(on))
  {
    AsksMore(m, [e]);
    assert (m + [e])[|m|] == e;
  }

  lemma AsksMore(m: seq<(string, Flag)>, more: seq<(string, Flag)>)
    ensures forall on :: Asks(m, on) ==> Asks(m + more, on)
  {
    forall on | Asks(m, on) ensures Asks(m + more, on) {
      var i :| 0 <= i < |m| && m[i].0 != "_id" && m[i].1 == Flag(on);
      assert (m + more)[i] == m[i];
    }
  }

  lemma IdOnce(m: seq<(string, Flag)>)
    requires UniqueKeys(m)
    ensures !(("_id", Flag(true)) in m && ("_id", Flag(false)) in m)
    ensures forall i, k: string, on: bool :: 0 <= i < |m| && m[i] == (k, Flag(on)) ==> (k, Flag(!on)) !in m
  {
  }

  // ---- what Mongo is asked for, and what is stripped ----

  function SortFields(sort: Sort): set<string> {
    set k | 0 <= k < |sort| :: sort[k].field
  }

  /** A projection document that gives every key of a set the same flag. */
  function Uniform(keys: set<string>, flag: int): (m: map<string, int>)
    ensures m.Keys == keys && forall k :: k in m ==> m[k] == flag
  {
    map k | k in keys :: flag
  }

  /** `projection_document`. */
  function MongoProjection(proj: Option<Projection>, sort: Sort): Option<map<string, int>> {
    if proj.None? then None
    else if proj.value.style.Include? then
      Some(Uniform(proj.value.fields + SortFields(sort) + {"_id"}, 1))
    else
      var d := Uniform(proj.value.fields - SortFields(sort) - {"_id"}, 0);
      if d == map[] then None else Some(d)
  }

  /** `projection_strip_fields`. */
  function StripFields(proj: Option<Projection>, sort: Sort): set<string> {
    if proj.None? then {}
    else if proj.value.style.Include? then
      (SortFields(sort) - {"_id"} - proj.value.fields) + (if proj.value.includeId then {} else {"_id"})
    else proj.value.fields + (if proj.value.excludeId then {"_id"} else {})
  }

  /** The in-place construction of the Mongo projection. */
  method ProjectionDocument(proj: Option<Projection>, sort: Sort) returns (r: Option<map<string, int>>)
    ensures r == MongoProjection(proj, sort)
  {
    if proj.None? {
      return None;
    }
    var incl := proj.value.style.Include?;
    var flag := if incl then 1 else 0;
    var d: map<string, int> := map[];
    var todo := proj.value.fields;
    while todo != {}
      invariant todo <= proj.value.fields
      invariant d == Uniform(proj.value.fields - todo, flag)
    {
      var f :| f in todo;
      d := d[f := flag];
      todo := todo - {f};
    }
    if incl {
      for k := 0 to |sort|
        invariant d == Uniform(proj.value.fields + (SortFields(sort[..k]) - {"_id"}), 1)
      {
        assert SortFields(sort[..k + 1]) == SortFields(sort[..k]) + {sort[k].field} by { SortFieldsStep(sort, k); }
        if sort[k].field != "_id" {
          d := d[sort[k].field := 1];
        }
      }
      d := d["_id" := 1];
      assert sort[..|sort|] == sort;
      assert d == Uniform(proj.value.fields + SortFields(sort) + {"_id"}, 1);
    } else {
      for k := 0 to |sort|
        invariant d == Uniform(proj.value.fields - (SortFields(sort[..k]) - {"_id"}), 0)
      {
        assert SortFields(sort[..k + 1]) == SortFields(sort[..k]) + {sort[k].field} by { SortFieldsStep(sort, k); }
        if sort[k].field != "_id" {
          d := d - {sort[k].field};
        }
      }
      assert sort[..|sort|] == sort;
      d := d - {"_id"};
      assert d == Uniform(proj.value.fields - SortFields(sort) - {"_id"}, 0);
      if d == map[] {
        return None;
      }
    }
    return Some(d);
  }

  /** The strip set, filled field by field. */
  method ProjectionStripFields(proj: Option<Projection>, sort: Sort) returns (strip: set<string>)
    ensures strip == StripFields(proj, sort)
  {
    strip := {};
    if proj.None? {
      return;
    }
    if proj.value.style.Include? {
      for k := 0 to |sort|
        invariant strip == SortFields(sort[..k]) - {"_id"} - proj.value.fields
      {
        SortFieldsStep(sort, k);
        if sort[k].field != "_id" && sort[k].field !in proj.value.fields {
          strip := strip + {sort[k].field};
        }
      }
      assert sort[..|sort|] == sort;
      if !proj.value.includeId {
        strip := strip + {"_id"};
      }
    } else {
      strip := proj.value.fields;
      if proj.value.excludeId {
        strip := strip + {"_id"};
      }
    }
  }

  lemma SortFieldsStep(sort: Sort, k: nat)
    requires k < |sort|
    ensures SortFields(sort[..k + 1]) == SortFields(sort[..k]) + {sort[k].field}
  {
    forall f ensures f in SortFields(sort[..k + 1]) <==> f in SortFields(sort[..k]) || f == sort[k].field {
      if f in SortFields(sort[..k]) {
        var i :| 0 <= i < k && sort[..k][i].field == f;
        assert sort[..k + 1][i].field == f;
      }
      if f in SortFields(sort[..k + 1]) {
        var i :| 0 <= i < k + 1 && sort[..k + 1][i].field == f;
        assert i < k ==> sort[..k][i].field == f;
      }
      assert sort[..k + 1][k] == sort[k];
    }
  }

  // ---- their effect on a document ----

  /** The entries whose key is in `keys` (or, with `inside` false, is not), order and values kept. */
  function Restrict(d: Document, keys: set<string>, inside: bool): (r: Document) {
    if d == [] then []
    else (if (d[0].0 in keys) == inside then [d[0]] else []) + Restrict(d[1..], keys, inside)
  }

  /** Mongo's reading of a projection document. */
  function MongoProject(p: Option<map<string, int>>, d: Document): Document {
    if p.None? then d
    else if exists f :: f in p.value && p.value[f] == 1 then Restrict(d, set f | f in p.value && p.value[f] == 1, true)
    else Restrict(d, p.value.Keys, false)
  }

  /** `bson_to_json_projected`, before each value is encoded. */
  function Strip(d: Document, strip: set<string>): Document {
    Restrict(d, strip, false)
  }

  /** The client's view of a document: no projection, or the visible entries in order. */
  function View(proj: Option<Projection>, d: Document): Document {
    if proj.None? then d
    else var p := proj.value;
      if p.style.Include? then Restrict(d, p.fields + (if p.includeId then {"_id"} else {}), true)
      else Restrict(d, p.fields + (if p.excludeId then {"_id"} else {}), false)
  }

  lemma {:induction false} RestrictTwice(d: Document, a: set<string>, insideA: bool, b: set<string>, insideB: bool,
                                         c: set<string>, insideC: bool)
    requires forall k :: ((k in a) == insideA && (k in b) == insideB) == ((k in c) == insideC)
    ensures Restrict(Restrict(d, a, insideA), b, insideB) == Restrict(d, c, insideC)
  {
    if d != [] {
      RestrictTwice(d[1..], a, insideA, b, insideB, c, insideC);
      var rest := Restrict(d[1..], a, insideA);
      if (d[0].0 in a) == insideA {
        assert Restrict(d, a, insideA)[1..] == rest;
      } else {
        assert Restrict(d, a, insideA) == rest;
      }
    }
  }

  /** Restricting works entry by entry: order and repetitions stay. */
  lemma {:induction false} RestrictConcat(a: Document, b: Document, keys: set<string>, inside: bool)
    ensures Restrict(a + b, keys, inside) == Restrict(a, keys, inside) + Restrict(b, keys, inside)
  {
    if a == [] {
      assert a + b == b;
    } else {
      assert (a + b)[0] == a[0] && (a + b)[1..] == a[1..] + b;
      RestrictConcat(a[1..], b, keys, inside);
    }
  }

  /** So does the client's view: the entries of a document are shown, or not, each by its own key. */
  lemma ViewConcat(p: Projection, a: Document, b: Document, key: string, v: Bson)
    requires "_id" !in p.fields
    ensures View(Some(p), a + b) == View(Some(p), a) + View(Some(p), b)
    ensures View(Some(p), [(key, v)]) == if Visible(p, key) then [(key, v)] else []
  {
    if p.style.Include? {
      RestrictConcat(a, b, p.fields + (if p.includeId then {"_id"} else {}), true);
    } else {
      RestrictConcat(a, b, p.fields + (if p.excludeId then {"_id"} else {}), false);
    }
    RestrictOne(key, v);
  }

  lemma RestrictOne(key: string, v: Bson)
    ensures forall keys, inside :: Restrict([(key, v)], keys, inside) == if (key in keys) == inside then [(key, v)] else []
  {
    assert [(key, v)][1..] == [];
  }

  lemma {:induction false} RestrictNothing(d: Document)
    ensures Restrict(d, {}, false) == d
  {
    if d != [] {
      RestrictNothing(d[1..]);
    }
  }

  /** The projection pipeline shows exactly the requested fields, values and order unchanged. */
  lemma PipelineShowsView(proj: Option<Projection>, sort: Sort, d: Document)
    requires proj.Some? ==> "_id" !in proj.value.fields
    ensures Strip(MongoProject(MongoProjection(proj, sort), d), StripFields(proj, sort)) == View(proj, d)
  {
    var mp, strip := MongoProjection(proj, sort), StripFields(proj, sort);
    if proj.None? {
      RestrictNothing(d);
    } else if proj.value.style.Include? {
      var kept := proj.value.fields + SortFields(sort) + {"_id"};
      assert mp.value["_id"] == 1;
      assert (set f | f in mp.value && mp.value[f] == 1) == kept;
      RestrictTwice(d, kept, true, strip, false, proj.value.fields + (if proj.value.includeId then {"_id"} else {}), true);
    } else {
      var dropped := proj.value.fields - SortFields(sort) - {"_id"};
      if mp.Some? {
        assert mp.value.Keys == dropped;
        RestrictTwice(d, dropped, false, strip, false, strip, false);
      }
    }
  }

  /** What a restriction leaves of one key. */
  lemma {:induction false} RestrictGet(d: Document, keys: set<string>, inside: bool, key: string)
    ensures Get(Restrict(d, keys, inside), key) == if (key in keys) == inside then Get(d, key) else None
  {
    if d != [] {
      RestrictGet(d[1..], keys, inside, key);
      var rest := Restrict(d[1..], keys, inside);
      if (d[0].0 in keys) == inside {
        assert Restrict(d, keys, inside)[1..] == rest;
      } else {
        assert Restrict(d, keys, inside) == rest;
      }
    }
  }

  /** Every sort field and `_id` survive the Mongo-side step, so the boundary row, and with it the next
      cursor, is the one of the unprojected document. */
  lemma BoundarySurvives(proj: Option<Projection>, sort: Sort, d: Document)
    ensures RowOf(sort, MongoProject(MongoProjection(proj, sort), d)) == RowOf(sort, d)
    ensures Get(MongoProject(MongoProjection(proj, sort), d), "_id") == Get(d, "_id")
  {
    forall key | key == "_id" || key in SortFields(sort)
      ensures Get(MongoProject(MongoProjection(proj, sort), d), key) == Get(d, key)
    {
      FieldSurvives(proj, sort, d, key);
    }
    forall k | 0 <= k < |sort|
      ensures RowOf(sort, MongoProject(MongoProjection(proj, sort), d))[k] == RowOf(sort, d)[k]
    {
      assert sort[k].field in SortFields(sort);
    }
  }

  lemma FieldSurvives(proj: Option<Projection>, sort: Sort, d: Document, key: string)
    requires key == "_id" || key in SortFields(sort)
    ensures Get(MongoProject(MongoProjection(proj, sort), d), key) == Get(d, key)
  {
    if proj.Some? {
      FetchedFields(proj.value, sort, d, key);
    }
  }

  /** Mongo sends exactly the fields the client sees, the sort fields and `_id`: nothing that is excluded crosses
      the wire unless a cursor needs it. */
  lemma FetchedFields(p: Projection, sort: Sort, d: Document, key: string)
    ensures Get(MongoProject(MongoProjection(Some(p), sort), d), key) ==
            if Visible(p, key) || key in SortFields(sort) || key == "_id" then Get(d, key) else None
  {
    var mp := MongoProjection(Some(p), sort);
    if p.style.Include? {
      assert mp.value["_id"] == 1;
      assert (set f | f in mp.value && mp.value[f] == 1) == p.fields + SortFields(sort) + {"_id"};
      RestrictGet(d, p.fields + SortFields(sort) + {"_id"}, true, key);
    } else {
      var dropped := p.fields - SortFields(sort) - {"_id"};
      DroppedFields(mp, d, dropped);
      RestrictGet(d, dropped, false, key);
    }
  }

  /** An exclusion with nothing to drop is no projection at all. */
  lemma DroppedFields(mp: Option<map<string, int>>, d: Document, dropped: set<string>)
    requires mp == if Uniform(dropped, 0) == map[] then None else Some(Uniform(dropped, 0))
    ensures MongoProject(mp, d) == Restrict(d, dropped, false)
  {
    if mp.Some? {
      assert mp.value.Keys == dropped;
    } else {
      assert Uniform(dropped, 0).Keys == {};
      RestrictNothing(d);
    }
  }
}
