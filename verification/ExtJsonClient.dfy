/** What a client can write: extended JSON tokens for the values plain JSON has no form for, and what the server
    reads them as. */
module ExtJsonClient {
  import opened Prelude
  import opened BsonValues
  import opened ExtJson

  /** What is asked of the texts inside tokens: ids, dates and integers are read as what was written. */
  ghost predicate ReadsTexts(k: Codec) {
    (forall x :: k.parseOid(k.oidHex(x)) == Some(x)) &&
    (forall x: i64 :: k.parseDate(k.date(x)) == Some(x)) &&
    (forall x: i64 :: k.parseI64(k.intText(x)) == Some(x)) &&
    (forall x: i32 :: k.parseI32(k.intText(x)) == Some(x))
  }

  lemma SomeCodecReadsTexts()
    ensures ReadsTexts(PlainCodec()) && Lawful(PlainCodec())
  {
    SomeCodecIsLawful();
    forall x: int ensures ReadSigned(Signed(x)) == x {
      SignedParts(x);
    }
  }

  // ---- the client's form of a value ----

  /** The token a client writes for a value that needs one. */
  function ClientToken(k: Codec, b: Bson): Option<seq<(string, Json)>> {
    match b
    case ObjectId(id) => Some(One("$oid", JString(k.oidHex(id))))
    case Int32(i) => Some(One("$numberInt", JString(k.intText(i))))
    case Int64(l) => Some(One("$numberLong", JString(k.intText(l))))
    case DateTime(ms) => Some(One("$date", JObject(One("$numberLong", JString(k.intText(ms))))))
    case _ => TokenOf(k, b)
  }

  /** Every value that BSON and extended JSON share, written out. */
  function Client(k: Codec, b: Bson): Json {
    match b
    case Array(items) => JArray(seq(|items|, i requires 0 <= i < |items| => Client(k, items[i])))
    case Document(f) => JObject(seq(|f|, i requires 0 <= i < |f| => (f[i].0, Client(k, f[i].1))))
    case _ => if ClientToken(k, b).Some? then JObject(ClientToken(k, b).value) else Scalar(k, b)
  }

  function ClientFields(k: Codec, f: Document): (r: seq<(string, Json)>)
    ensures |r| == |f| && forall i {:trigger r[i]} :: 0 <= i < |r| ==> r[i] == (f[i].0, Client(k, f[i].1))
  {
    seq(|f|, i requires 0 <= i < |f| => (f[i].0, Client(k, f[i].1)))
  }

  /** Values a client can write: no types JSON and the tokens lack, no reserved binary subtype, no document that
      spells a token. */
  predicate Writable(k: Codec, b: Bson) {
    match b
    case Array(items) => forall i :: 0 <= i < |items| ==> Writable(k, items[i])
    case Document(f) => !LooksLikeToken(k, f) && forall i :: 0 <= i < |f| ==> Writable(k, f[i].1)
    case Binary(st, _) => st.Generic? || (st.UserDefined? && st.code != 0)
    case Symbol(_) => false
    case JavaScriptCode(_) => false
    case JavaScriptCodeWithScope(_, _) => false
    case DbPointer(_) => false
    case Undefined => false
    case _ => true
  }

  // ---- tokens ----

  lemma OidReads(k: Codec, id: int)
    requires ReadsTexts(k)
    ensures Token(k, One("$oid", JString(k.oidHex(id)))) == Some(Ok(ObjectId(id)))
  {
    TokenOfOne(k, Oid, JString(k.oidHex(id)));
  }

  lemma IntReads(k: Codec, i: i32)
    requires ReadsTexts(k)
    ensures Token(k, One("$numberInt", JString(k.intText(i)))) == Some(Ok(Int32(i)))
  {
    TokenOfOne(k, NumberInt, JString(k.intText(i)));
    KeysDiffer();
  }

  lemma LongReads(k: Codec, l: i64)
    requires ReadsTexts(k)
    ensures Token(k, One("$numberLong", JString(k.intText(l)))) == Some(Ok(Int64(l)))
  {
    TokenOfOne(k, NumberLong, JString(k.intText(l)));
    KeysDiffer();
  }

  /** All three forms of a date. */
  lemma DateReads(k: Codec, ms: i64)
    requires ReadsTexts(k)
    ensures Token(k, One("$date", JObject(One("$numberLong", JString(k.intText(ms)))))) == Some(Ok(DateTime(ms)))
    ensures Token(k, One("$date", JString(k.date(ms)))) == Some(Ok(DateTime(ms)))
    ensures Token(k, One("$date", JInt(ms))) == Some(Ok(DateTime(ms)))
  {
    KeysDiffer();
    GetOne("$numberLong", JString(k.intText(ms)), KeyText(NumberLong));
    TokenOfOne(k, Date, JObject(One("$numberLong", JString(k.intText(ms)))));
    TokenOfOne(k, Date, JString(k.date(ms)));
    TokenOfOne(k, Date, JInt(ms));
  }

  /** The texts and numbers that stand for a time. */
  predicate SpellsDate(k: Codec, v: Json, ms: i64) {
    (v.JString? && k.parseDate(v.s) == Some(ms)) || v == JInt(ms) ||
    (v.JObject? && exists i :: 0 <= i < |v.fields| && v.fields[i].0 == "$numberLong" &&
                               (forall j :: 0 <= j < i ==> v.fields[j].0 != "$numberLong") &&
                               k.parseI64(if v.fields[i].1.JString? then v.fields[i].1.s else "") == Some(ms))
  }

  lemma {:induction false} GetFirst<V>(d: seq<(string, V)>, key: string, i: nat)
    requires i < |d| && d[i].0 == key && forall j :: 0 <= j < i ==> d[j].0 != key
    ensures Get(d, key) == Some(d[i].1)
  {
    if i > 0 {
      GetFirst(d[1..], key, i - 1);
    }
  }

  lemma {:induction false} FirstOf<V>(d: seq<(string, V)>, key: string) returns (i: nat)
    requires Get(d, key).Some?
    ensures i < |d| && d[i].0 == key && (forall j :: 0 <= j < i ==> d[j].0 != key) && Get(d, key) == Some(d[i].1)
  {
    if d[0].0 == key {
      i := 0;
    } else {
      var n := FirstOf(d[1..], key);
      i := n + 1;
    }
  }

  /** A date token is taken for exactly those, and refused otherwise: it is never stored as a document. */
  lemma DateIff(k: Codec, v: Json, ms: i64)
    ensures Token(k, One("$date", v)).Some?
    ensures Token(k, One("$date", v)).value == Ok(DateTime(ms)) <==> SpellsDate(k, v, ms)
  {
    KeysDiffer();
    TokenOfOne(k, Date, v);
    if v.JObject? {
      DateObjectIff(k, v.fields, ms);
    }
  }

  lemma DateObjectIff(k: Codec, o: seq<(string, Json)>, ms: i64)
    ensures DateToBson(k, JObject(o)) == Ok(DateTime(ms)) <==> SpellsDate(k, JObject(o), ms)
  {
    if DateToBson(k, JObject(o)) == Ok(DateTime(ms)) {
      var i := FirstOf(o, "$numberLong");
    }
    if SpellsDate(k, JObject(o), ms) {
      var i :| 0 <= i < |o| && o[i].0 == "$numberLong" && (forall j :: 0 <= j < i ==> o[j].0 != "$numberLong") &&
               k.parseI64(if o[i].1.JString? then o[i].1.s else "") == Some(ms);
      GetFirst(o, "$numberLong", i);
    }
  }

  /** Both parts of a timestamp token must be unsigned 32-bit numbers. */
  lemma TimestampIff(k: Codec, t: JsonInt, i: JsonInt)
    ensures Token(k, One("$timestamp", JObject(Two("t", JInt(t), "i", JInt(i))))) ==
            Some(if 0 <= t < 0x1_0000_0000 && 0 <= i < 0x1_0000_0000 then Ok(Timestamp(t, i)) else Err(BadTimestamp))
  {
    StampToken(k, JObject(Two("t", JInt(t), "i", JInt(i))));
    GetTwo("t", JInt(t), "i", JInt(i), "t");
    GetTwo("t", JInt(t), "i", JInt(i), "i");
  }

  lemma StampToken(k: Codec, v: Json)
    ensures Token(k, One("$timestamp", v)) == Some(TimestampToBson(k, v))
  {
    KeysDiffer();
    TokenOfOne(k, TimestampKey, v);
  }

  /** Integers are stored in 64 signed bits, or as the decimal they spell: none wraps around. */
  lemma IntegerIff(k: Codec, i: JsonInt, b: Bson)
    ensures ToBson(k, JInt(i)) == Ok(b) <==>
            if i < 0x8000_0000_0000_0000 then b == Int64(i)
            else b.Decimal128? && k.parseDecimal(k.intText(i)) == Some(b.dec)
  {
  }

  /** What the server reads a client's token as. */
  lemma ClientTokenReads(k: Codec, b: Bson)
    requires Lawful(k) && ReadsTexts(k) && ClientToken(k, b).Some?
    ensures Token(k, ClientToken(k, b).value).Some?
    ensures Token(k, ClientToken(k, b).value).value == Ok(b) <==> Writable(k, b)
  {
    if TokenOf(k, b).Some? {
      TokenReads(k, b);
      OwnToken(k, b);
    } else {
      NewTokenReads(k, b);
    }
  }

  lemma OwnToken(k: Codec, b: Bson)
    requires TokenOf(k, b).Some?
    ensures ClientToken(k, b) == TokenOf(k, b)
    ensures Writable(k, b) <==> Survives(k, b)
  {
  }

  lemma NewTokenReads(k: Codec, b: Bson)
    requires ReadsTexts(k) && ClientToken(k, b).Some? && TokenOf(k, b).None?
    ensures Token(k, ClientToken(k, b).value) == Some(Ok(b)) && Writable(k, b)
  {
    match b
    case ObjectId(id) => OidReads(k, id);
    case Int32(i) => IntReads(k, i);
    case Int64(l) => LongReads(k, l);
    case DateTime(ms) => DateReads(k, ms);
  }

  lemma LeafReadsIff(k: Codec, b: Bson)
    requires Lawful(k) && ReadsTexts(k) && !b.Array? && !b.Document? && !b.JavaScriptCodeWithScope? && !b.DbPointer?
    ensures ToBson(k, Client(k, b)) == Ok(b) <==> Writable(k, b)
  {
    if ClientToken(k, b).Some? {
      ClientTokenReads(k, b);
      TokenDecides(k, ClientToken(k, b).value);
    }
  }

  // ---- documents ----

  /** The image of a writable value is a string, or holds a binary token's strings, exactly when the value does. */
  predicate SameShape(k: Codec, b: Bson, j: Json) {
    (j.JString? <==> b.String?) &&
    (BinaryParts(k, j).Some? <==>
       b.Document? && StringAt(b.fields, KeyText(Base64)) && StringAt(b.fields, KeyText(SubType)))
  }

  lemma {:induction false} GetClient(k: Codec, f: Document, key: string)
    ensures Get(ClientFields(k, f), key) == match Get(f, key) case Some(v) => Some(Client(k, v)) case None => None
  {
    if f != [] && f[0].0 != key {
      assert ClientFields(k, f)[1..] == ClientFields(k, f[1..]);
      GetClient(k, f[1..], key);
    }
  }

  lemma DocumentForm(k: Codec, f: Document)
    ensures Client(k, Document(f)) == JObject(ClientFields(k, f))
  {
  }

  lemma StringForm(k: Codec, b: Bson)
    requires Writable(k, b)
    ensures Client(k, b).JString? <==> b.String?
  {
  }

  lemma StringFieldForm(k: Codec, f: Document, key: string)
    requires forall i :: 0 <= i < |f| ==> Writable(k, f[i].1)
    ensures var v := Get(ClientFields(k, f), key);
            (v.Some? <==> Get(f, key).Some?) && (v.Some? && v.value.JString? <==> StringAt(f, key))
  {
    GetClient(k, f, key);
    if Get(f, key).Some? {
      StringForm(k, Get(f, key).value);
    }
  }

  lemma NoBinaryToken(k: Codec, b: Bson)
    requires ClientToken(k, b).Some?
    ensures BinaryParts(k, JObject(ClientToken(k, b).value)).None?
  {
    if b.ObjectId? || b.Int32? || b.Int64? || b.DateTime? {
      var m := ClientToken(k, b).value;
      OneIsNoBinaryText(k, m[0].0, m[0].1);
    } else {
      TokenIsNoBinary(k, b);
    }
  }

  lemma OneIsNoBinaryText(k: Codec, name: string, v: Json)
    requires name != KeyText(Base64)
    ensures BinaryParts(k, JObject([(name, v)])).None?
  {
    GetOne(name, v, KeyText(Base64));
  }

  lemma ShapeKept(k: Codec, b: Bson)
    requires Writable(k, b)
    ensures SameShape(k, b, Client(k, b))
  {
    StringForm(k, b);
    if b.Document? {
      DocumentForm(k, b.fields);
      StringFieldForm(k, b.fields, KeyText(Base64));
      StringFieldForm(k, b.fields, KeyText(SubType));
    } else if ClientToken(k, b).Some? {
      NoBinaryToken(k, b);
    }
  }

  /** A document's form is read as a token exactly when the document spells one. */
  lemma FormIsTokenIff(k: Codec, f: Document)
    requires forall i :: 0 <= i < |f| ==> Writable(k, f[i].1)
    ensures Token(k, ClientFields(k, f)).Some? <==> LooksLikeToken(k, f)
  {
    StringFieldForm(k, f, KeyText(Regex));
    StringFieldForm(k, f, KeyText(Options));
    if |f| == 1 {
      ShapeKept(k, f[0].1);
      SingleByShape(k, f[0].0, f[0].1, Client(k, f[0].1));
    }
  }

  lemma DocumentReadsIff(k: Codec, f: Document)
    requires forall i :: 0 <= i < |f| ==> (ToBson(k, Client(k, f[i].1)) == Ok(f[i].1) <==> Writable(k, f[i].1))
    ensures ToBson(k, Client(k, Document(f))) == Ok(Document(f)) <==> Writable(k, Document(f))
  {
    var m := ClientFields(k, f);
    DocumentForm(k, f);
    if Token(k, m).Some? {
      TokenDecides(k, m);
      TokenIsNoDocument(k, m);
    } else {
      FieldsRead(k, f, m);
    }
    if forall i :: 0 <= i < |f| ==> Writable(k, f[i].1) {
      FormIsTokenIff(k, f);
    }
  }

  lemma ArrayReadsIff(k: Codec, items: seq<Bson>)
    requires forall i :: 0 <= i < |items| ==> (ToBson(k, Client(k, items[i])) == Ok(items[i]) <==> Writable(k, items[i]))
    ensures ToBson(k, Client(k, Array(items))) == Ok(Array(items)) <==> Writable(k, Array(items))
  {
    var js := Client(k, Array(items)).items;
    var rs := seq(|js|, i requires 0 <= i < |js| => ToBson(k, js[i]));
    CollectIs(rs, items);
    assert forall i :: 0 <= i < |items| ==> rs[i] == ToBson(k, Client(k, items[i]));
  }

  /** A client can have any writable value stored exactly, however nested: 32-bit integers, object ids and dates,
      which come back changed, go in as themselves. */
  lemma {:induction false} ClientWritesIff(k: Codec, b: Bson)
    requires Lawful(k) && ReadsTexts(k)
    ensures ToBson(k, Client(k, b)) == Ok(b) <==> Writable(k, b)
  {
    match b
    case Array(items) =>
      forall i | 0 <= i < |items| ensures ToBson(k, Client(k, items[i])) == Ok(items[i]) <==> Writable(k, items[i]) {
        ClientWritesIff(k, items[i]);
      }
      ArrayReadsIff(k, items);
    case Document(f) =>
      forall i | 0 <= i < |f| ensures ToBson(k, Client(k, f[i].1)) == Ok(f[i].1) <==> Writable(k, f[i].1) {
        ClientWritesIff(k, f[i].1);
      }
      DocumentReadsIff(k, f);
    case JavaScriptCodeWithScope(_, _) => NeverRead(k, Client(k, b));
    case DbPointer(_) => NeverRead(k, Client(k, b));
    case _ => LeafReadsIff(k, b);
  }
}
