/** What the lossy values become on the way to the client and back: each one the nearest type JSON can tell apart. */
module ExtJsonWidening {
  import opened Prelude
  import opened BsonValues
  import opened ExtJson

  function WidenedItems(k: Codec, items: seq<Bson>): (r: seq<Bson>)
    ensures |r| == |items| && forall i {:trigger r[i]} :: 0 <= i < |r| ==> r[i] == Widened(k, items[i])
  {
    seq(|items|, i requires 0 <= i < |items| => Widened(k, items[i]))
  }

  function WidenedFields(k: Codec, f: Document): (r: Document)
    ensures |r| == |f| && forall i {:trigger r[i]} :: 0 <= i < |r| ==> r[i] == (f[i].0, Widened(k, f[i].1))
  {
    seq(|f|, i requires 0 <= i < |f| => (f[i].0, Widened(k, f[i].1)))
  }

  /** 32-bit integers become 64-bit ones; symbols, code, object ids and dates strings; undefined null; a reserved
      binary subtype the user-defined one of that number; code with a scope a document. */
  function Widened(k: Codec, b: Bson): Bson {
    match b
    case Int32(i) => Int64(i)
    case Symbol(s) => String(s)
    case JavaScriptCode(c) => String(c)
    case ObjectId(id) => String(k.oidHex(id))
    case DateTime(ms) => String(k.date(ms))
    case Undefined => Null
    case Binary(st, bytes) =>
      Binary(match st
             case Generic => Generic
             case UserDefined(c) => if c == 0 then Generic else st
             case Reserved(c) => if c == 0 then Generic else UserDefined(c), bytes)
    case Array(items) => Array(seq(|items|, i requires 0 <= i < |items| => Widened(k, items[i])))
    case Document(f) => Document(seq(|f|, i requires 0 <= i < |f| => (f[i].0, Widened(k, f[i].1))))
    case JavaScriptCodeWithScope(c, scope) =>
      Document([("$code", String(c)),
                ("$scope", Document(seq(|scope|, i requires 0 <= i < |scope| => (scope[i].0, Widened(k, scope[i].1)))))])
    case _ => b
  }

  /** No pointer anywhere: what serde writes for one is not modelled. */
  predicate NoPointer(b: Bson) {
    match b
    case DbPointer(_) => false
    case Array(items) => forall i :: 0 <= i < |items| ==> NoPointer(items[i])
    case Document(f) => forall i :: 0 <= i < |f| ==> NoPointer(f[i].1)
    case JavaScriptCodeWithScope(_, scope) => forall i :: 0 <= i < |scope| ==> NoPointer(scope[i].1)
    case _ => true
  }

  /** No document in it is read as a token. */
  predicate NoTokens(k: Codec, b: Bson) {
    match b
    case Array(items) => forall i :: 0 <= i < |items| ==> NoTokens(k, items[i])
    case Document(f) => !LooksLikeToken(k, f) && forall i :: 0 <= i < |f| ==> NoTokens(k, f[i].1)
    case _ => true
  }

  // ---- a value and its widening look the same to the client ----

  lemma FieldsSame(k: Codec, f: Document)
    requires forall i :: 0 <= i < |f| ==> ToJson(k, Widened(k, f[i].1)) == ToJson(k, f[i].1)
    ensures FieldsToJson(k, WidenedFields(k, f)) == FieldsToJson(k, f)
  {
  }

  lemma DocumentSame(k: Codec, f: Document)
    requires forall i :: 0 <= i < |f| ==> ToJson(k, Widened(k, f[i].1)) == ToJson(k, f[i].1)
    ensures ToJson(k, Widened(k, Document(f))) == ToJson(k, Document(f))
  {
    FieldsSame(k, f);
    assert Widened(k, Document(f)) == Document(WidenedFields(k, f));
    DocumentImage(k, f);
    DocumentImage(k, WidenedFields(k, f));
  }

  lemma ArraySame(k: Codec, items: seq<Bson>)
    requires forall i :: 0 <= i < |items| ==> ToJson(k, Widened(k, items[i])) == ToJson(k, items[i])
    ensures ToJson(k, Widened(k, Array(items))) == ToJson(k, Array(items))
  {
    var w := WidenedItems(k, items);
    assert Widened(k, Array(items)) == Array(w);
    var a, b := ToJson(k, Array(w)).items, ToJson(k, Array(items)).items;
    assert forall i :: 0 <= i < |items| ==> a[i] == ToJson(k, w[i]) && b[i] == ToJson(k, items[i]);
    assert a == b;
  }

  lemma ScopeSame(k: Codec, c: string, scope: Document)
    requires forall i :: 0 <= i < |scope| ==> ToJson(k, Widened(k, scope[i].1)) == ToJson(k, scope[i].1)
    ensures ToJson(k, Widened(k, JavaScriptCodeWithScope(c, scope))) == ToJson(k, JavaScriptCodeWithScope(c, scope))
  {
    FieldsSame(k, scope);
    WidenedScope(k, c, scope);
    PairsSame(k, c, WidenedFields(k, scope));
    ScopeImage(k, c, scope);
  }

  lemma PairsSame(k: Codec, c: string, inner: Document)
    ensures ToJson(k, Document([("$code", String(c)), ("$scope", Document(inner))])) ==
            JObject(Two(KeyText(Code), JString(c), KeyText(Scope), JObject(FieldsToJson(k, inner))))
  {
    PairImage(k, "$code", String(c), "$scope", Document(inner));
    DocumentImage(k, inner);
  }

  lemma WidenedScope(k: Codec, c: string, scope: Document)
    ensures Widened(k, JavaScriptCodeWithScope(c, scope)) ==
            Document([("$code", String(c)), ("$scope", Document(WidenedFields(k, scope)))])
  {
  }

  lemma PairImage(k: Codec, a: string, x: Bson, b: string, y: Bson)
    ensures ToJson(k, Document([(a, x), (b, y)])) == JObject(Two(a, ToJson(k, x), b, ToJson(k, y)))
  {
    DocumentImage(k, [(a, x), (b, y)]);
    assert FieldsToJson(k, [(a, x), (b, y)]) == Two(a, ToJson(k, x), b, ToJson(k, y));
  }

  lemma ScopeImage(k: Codec, c: string, scope: Document)
    ensures ToJson(k, JavaScriptCodeWithScope(c, scope)) ==
            JObject(Two(KeyText(Code), JString(c), KeyText(Scope), JObject(FieldsToJson(k, scope))))
  {
  }

  lemma {:induction false} SameImage(k: Codec, b: Bson)
    requires NoPointer(b)
    ensures ToJson(k, Widened(k, b)) == ToJson(k, b)
  {
    match b
    case Array(items) =>
      forall i | 0 <= i < |items| ensures ToJson(k, Widened(k, items[i])) == ToJson(k, items[i]) {
        SameImage(k, items[i]);
      }
      ArraySame(k, items);
    case Document(f) =>
      forall i | 0 <= i < |f| ensures ToJson(k, Widened(k, f[i].1)) == ToJson(k, f[i].1) {
        SameImage(k, f[i].1);
      }
      DocumentSame(k, f);
    case JavaScriptCodeWithScope(c, scope) =>
      forall i | 0 <= i < |scope| ensures ToJson(k, Widened(k, scope[i].1)) == ToJson(k, scope[i].1) {
        SameImage(k, scope[i].1);
      }
      ScopeSame(k, c, scope);
    case _ => LeafSame(k, b);
  }

  lemma LeafSame(k: Codec, b: Bson)
    requires !b.Array? && !b.Document? && !b.JavaScriptCodeWithScope?
    ensures ToJson(k, Widened(k, b)) == ToJson(k, b)
  {
  }

  // ---- and comes back as the widening ----

  lemma {:induction false} WidenedSurvivesIff(k: Codec, b: Bson)
    requires NoPointer(b)
    ensures Survives(k, Widened(k, b)) <==> NoTokens(k, Widened(k, b))
  {
    match b
    case Array(items) =>
      forall i | 0 <= i < |items| ensures Survives(k, Widened(k, items[i])) <==> NoTokens(k, Widened(k, items[i])) {
        WidenedSurvivesIff(k, items[i]);
      }
    case Document(f) =>
      forall i | 0 <= i < |f| ensures Survives(k, Widened(k, f[i].1)) <==> NoTokens(k, Widened(k, f[i].1)) {
        WidenedSurvivesIff(k, f[i].1);
      }
    case JavaScriptCodeWithScope(c, scope) =>
      forall i | 0 <= i < |scope| ensures Survives(k, Widened(k, scope[i].1)) <==> NoTokens(k, Widened(k, scope[i].1)) {
        WidenedSurvivesIff(k, scope[i].1);
      }
      ScopeSurvivesIff(k, c, scope);
    case _ =>
  }

  lemma ScopeSurvivesIff(k: Codec, c: string, scope: Document)
    requires forall i :: 0 <= i < |scope| ==> (Survives(k, Widened(k, scope[i].1)) <==> NoTokens(k, Widened(k, scope[i].1)))
    ensures var w := Widened(k, JavaScriptCodeWithScope(c, scope)); Survives(k, w) <==> NoTokens(k, w)
  {
    var inner := Document(WidenedFields(k, scope));
    var d := [("$code", String(c)), ("$scope", inner)];
    WidenedScope(k, c, scope);
    assert Survives(k, inner) <==> NoTokens(k, inner);
    assert d[0].1 == String(c) && d[1].1 == inner;
  }

  /** Whatever is stored, the client that writes back what it read stores the widened value, unless a document in
      it spells a token; nothing else is lost. */
  lemma WidenedIff(k: Codec, b: Bson)
    requires Lawful(k) && NoPointer(b)
    ensures ToBson(k, ToJson(k, b)) == Ok(Widened(k, b)) <==> NoTokens(k, Widened(k, b))
  {
    SameImage(k, b);
    RoundTripIff(k, Widened(k, b));
    WidenedSurvivesIff(k, b);
  }
}
