/** The extended-JSON converter of src/dbq.rs: which values keep their type on the way to the client and
    back. */
module ExtJson {
  import opened Prelude
  import opened BsonValues

  // ---- JSON ----

  /** The integers a JSON number is kept in: signed or unsigned 64 bits. */
  type JsonInt = x: int | -0x8000_0000_0000_0000 <= x < 0x1_0000_0000_0000_0000

  /** Objects keep the order of their keys. */
  datatype Json =
    | JNull
    | JBool(b: bool)
    | JInt(i: JsonInt)
    | JFloat(mantissa: int, exponent: int)
    | JString(s: string)
    | JArray(items: seq<Json>)
    | JObject(fields: seq<(string, Json)>)

  // ---- spelling ----

  /** The reserved keys. */
  datatype Key =
    | Oid | Date | NumberLong | NumberInt | NumberDouble | NumberDecimal | BinaryKey | Base64 | SubType
    | Regex | Options | TimestampKey | Time | Increment | MinKeyKey | MaxKeyKey | Code | Scope

  function KeyText(k: Key): string {
    match k
    case Oid => "$oid" case Date => "$date" case NumberLong => "$numberLong" case NumberInt => "$numberInt"
    case NumberDouble => "$numberDouble" case NumberDecimal => "$numberDecimal" case BinaryKey => "$binary"
    case Base64 => "base64" case SubType => "subType" case Regex => "$regex" case Options => "$options"
    case TimestampKey => "$timestamp" case Time => "t" case Increment => "i" case MinKeyKey => "$minKey"
    case MaxKeyKey => "$maxKey" case Code => "$code" case Scope => "$scope"
  }

  /** Which key a text spells; other texts do not matter. */
  function KeyOf(s: string): Key {
    match |s|
    case 1 => if s[0] == 't' then Time else Increment
    case 4 => Oid
    case 5 => if s[1] == 'd' then Date else Code
    case 6 => if s[1] == 'a' then Base64 else if s[1] == 'r' then Regex else Scope
    case 7 => if s[1] == 'b' then BinaryKey else if s[1] == 'u' then SubType else if s[2] == 'i' then MinKeyKey else MaxKeyKey
    case 8 => Options
    case 10 => if s[1] == 'n' then NumberInt else TimestampKey
    case 11 => NumberLong
    case 13 => NumberDouble
    case _ => NumberDecimal
  }

  /** No two reserved keys are spelled alike. */
  lemma KeysDiffer()
    ensures forall a :: KeyOf(KeyText(a)) == a
  {
  }

  /** The text encodings of the libraries. */
  datatype Codec = Codec(
    base64: seq<u8> -> string, fromBase64: string -> Option<seq<u8>>,
    hex: u8 -> string, fromHex: string -> u8,
    decimal: Decimal -> string, parseDecimal: string -> Option<Decimal>,
    double: Float -> string, parseDouble: string -> Option<Float>,
    oidHex: int -> string, parseOid: string -> Option<int>,
    date: i64 -> string, parseDate: string -> Option<i64>,
    parseI64: string -> Option<i64>, parseI32: string -> Option<i32>,
    intText: int -> string, pointer: string -> Json)

  /** Decoding inverts encoding, for doubles on those that are written as text. */
  ghost predicate Lawful(k: Codec) {
    (forall x :: k.fromBase64(k.base64(x)) == Some(x)) &&
    (forall x :: k.fromHex(k.hex(x)) == x) &&
    (forall x :: k.parseDecimal(k.decimal(x)) == Some(x)) &&
    (forall x: Float :: !x.Fin? ==> k.parseDouble(k.double(x)) == Some(x))
  }

  // ---- a lawful codec ----

  function Ones(n: nat): (r: string)
    ensures |r| == n && forall i :: 0 <= i < n ==> r[i] == '1'
  {
    seq(n, i => '1')
  }

  /** A sign and that many ones. */
  function Signed(n: int): string {
    if n < 0 then "-" + Ones(-n) else "+" + Ones(n)
  }

  function LeadingOnes(s: string): nat {
    if s == "" || s[0] != '1' then 0 else 1 + LeadingOnes(s[1..])
  }

  function WithSign(c: char, n: int): int {
    if c == '-' then -n else n
  }

  function DecimalText(d: Decimal): string {
    match d
    case DecimalNaN => "N"
    case DecimalNegInf => "-"
    case DecimalPosInf => "I"
    case DecimalFin(c, e) => "F" + Signed(c) + Signed(e)
  }

  function ReadDecimal(s: string): Option<Decimal> {
    if s == "N" then Some(DecimalNaN)
    else if s == "-" then Some(DecimalNegInf)
    else if s == "I" then Some(DecimalPosInf)
    else if |s| < 3 then None
    else
      var k := LeadingOnes(s[2..]);
      if |s| < k + 3 then None
      else Some(DecimalFin(WithSign(s[1], k), WithSign(s[k + 2], |s| - k - 3)))
  }

  lemma {:induction false} OnesLead(n: nat, rest: string)
    requires rest != "" && rest[0] != '1'
    ensures LeadingOnes(Ones(n) + rest) == n
  {
    if n == 0 {
      assert Ones(0) + rest == rest;
    } else {
      OnesLead(n - 1, rest);
      assert (Ones(n) + rest)[1..] == Ones(n - 1) + rest;
    }
  }

  lemma DecimalReadsBack(d: Decimal)
    ensures ReadDecimal(DecimalText(d)) == Some(d)
  {
    if d.DecimalFin? {
      FiniteReadsBack(d.coefficient, d.exponent);
    }
  }

  lemma FiniteReadsBack(c: int, e: int)
    ensures ReadDecimal("F" + Signed(c) + Signed(e)) == Some(DecimalFin(c, e))
  {
    var s, k := "F" + Signed(c) + Signed(e), |Signed(c)| - 1;
    SignedParts(c);
    SignedParts(e);
    assert |s| == 2 + k + |Signed(e)| && s[0] == 'F' && s[1] == Signed(c)[0] && s[k + 2] == Signed(e)[0];
    assert s[2..] == Signed(c)[1..] + Signed(e);
    OnesLead(k, Signed(e));
  }

  lemma SignedParts(n: int)
    ensures var k := if n < 0 then -n else n;
            |Signed(n)| == k + 1 && Signed(n)[1..] == Ones(k) && Signed(n)[0] != '1' && WithSign(Signed(n)[0], k) == n
  {
  }

  function Chars(bytes: seq<u8>): (r: string)
    ensures |r| == |bytes| && forall i :: 0 <= i < |r| ==> r[i] == bytes[i] as char
  {
    seq(|bytes|, i requires 0 <= i < |bytes| => bytes[i] as char)
  }

  function Codes(s: string): (r: Option<seq<u8>>)
    ensures (forall i :: 0 <= i < |s| ==> s[i] as int < 256) ==>
              r.Some? && |r.value| == |s| && forall i :: 0 <= i < |s| ==> r.value[i] == s[i] as int
  {
    if forall i :: 0 <= i < |s| ==> s[i] as int < 256
    then Some(seq(|s|, i requires 0 <= i < |s| => s[i] as int))
    else None
  }

  function DoubleText(f: Float): string {
    match f case NaN => "N" case NegInf => "-" case PosInf => "I" case Fin(_, _) => "F"
  }

  function ReadDouble(s: string): Option<Float> {
    if s == "N" then Some(NaN) else if s == "-" then Some(NegInf) else if s == "I" then Some(PosInf) else None
  }

  function PlainCodec(): Codec {
    Codec((bytes: seq<u8>) => Chars(bytes), (s: string) => Codes(s),
          (c: u8) => [c as char], (s: string) => if |s| == 1 && s[0] as int < 256 then s[0] as int else 0,
          (d: Decimal) => DecimalText(d), (s: string) => ReadDecimal(s),
          (f: Float) => DoubleText(f), (s: string) => ReadDouble(s),
          (id: int) => Signed(id), (s: string) => Some(ReadSigned(s)),
          (ms: i64) => Signed(ms), (s: string) => ReadI64(s),
          (s: string) => ReadI64(s), (s: string) => ReadI32(s), (n: int) => Signed(n), (ns: string) => JString(ns))
  }

  function ReadSigned(s: string): int {
    if s == "" then 0 else WithSign(s[0], |s| - 1)
  }

  function ReadI64(s: string): Option<i64> {
    var n := ReadSigned(s);
    if -0x8000_0000_0000_0000 <= n < 0x8000_0000_0000_0000 then Some(n) else None
  }

  function ReadI32(s: string): Option<i32> {
    var n := ReadSigned(s);
    if -0x8000_0000 <= n < 0x8000_0000 then Some(n) else None
  }

  /** The laws can be met. */
  lemma SomeCodecIsLawful()
    ensures Lawful(PlainCodec())
  {
    var k := PlainCodec();
    forall x ensures k.fromBase64(k.base64(x)) == Some(x) {
      assert Codes(Chars(x)).value == x;
    }
    forall x ensures k.parseDecimal(k.decimal(x)) == Some(x) {
      DecimalReadsBack(x);
    }
  }

  // ---- BSON to JSON ----

  function One(key: string, v: Json): seq<(string, Json)> {
    [(key, v)]
  }

  function Two(a: string, x: Json, b: string, y: Json): seq<(string, Json)> {
    [(a, x), (b, y)]
  }

  function Hex(s: Subtype): u8 {
    match s case Generic => 0 case UserDefined(c) => c case Reserved(c) => c
  }

  function BinaryBody(k: Codec, st: Subtype, bytes: seq<u8>): Json {
    JObject(Two(KeyText(Base64), JString(k.base64(bytes)), KeyText(SubType), JString(k.hex(Hex(st)))))
  }

  function TimestampBody(k: Codec, t: u32, i: u32): Json {
    JObject(Two(KeyText(Time), JInt(t), KeyText(Increment), JInt(i)))
  }

  /** The key of a value written as a token object. */
  function TokenName(b: Bson): Option<Key> {
    match b
    case Double(f) => if f.Fin? then None else Some(NumberDouble)
    case RegularExpression(_, _) => Some(Regex)
    case Binary(_, _) => Some(BinaryKey)
    case Timestamp(_, _) => Some(TimestampKey)
    case Decimal128(_) => Some(NumberDecimal)
    case MaxKey => Some(MaxKeyKey)
    case MinKey => Some(MinKeyKey)
    case _ => None
  }

  function TokenBody(k: Codec, b: Bson): Json {
    match b
    case Double(f) => JString(k.double(f))
    case RegularExpression(p, _) => JString(p)
    case Binary(st, bytes) => BinaryBody(k, st, bytes)
    case Timestamp(t, i) => TimestampBody(k, t, i)
    case Decimal128(d) => JString(k.decimal(d))
    case _ => JInt(1)
  }

  /** The values written as token objects. */
  function TokenOf(k: Codec, b: Bson): Option<seq<(string, Json)>> {
    var name := TokenName(b);
    if name.None? then None
    else if b.RegularExpression? && b.options != ""
    then Some(Two(KeyText(Regex), JString(b.pattern), KeyText(Options), JString(b.options)))
    else Some(One(KeyText(name.value), TokenBody(k, b)))
  }

  /** The values written as JSON scalars. */
  function Scalar(k: Codec, b: Bson): Json {
    match b
    case Double(Fin(m, e)) => JFloat(m, e)
    case String(s) => JString(s)
    case Boolean(x) => JBool(x)
    case Int32(i) => JInt(i)
    case Int64(l) => JInt(l)
    case ObjectId(id) => JString(k.oidHex(id))
    case DateTime(ms) => JString(k.date(ms))
    case Symbol(s) => JString(s)
    case JavaScriptCode(c) => JString(c)
    case DbPointer(ns) => k.pointer(ns)
    case _ => JNull
  }

  /** `bson_to_json`. */
  function ToJson(k: Codec, b: Bson): Json {
    match b
    case Array(items) => JArray(seq(|items|, i requires 0 <= i < |items| => ToJson(k, items[i])))
    case Document(fields) => JObject(seq(|fields|, i requires 0 <= i < |fields| => (fields[i].0, ToJson(k, fields[i].1))))
    case JavaScriptCodeWithScope(c, scope) =>
      JObject(Two(KeyText(Code), JString(c), KeyText(Scope),
                  JObject(seq(|scope|, i requires 0 <= i < |scope| => (scope[i].0, ToJson(k, scope[i].1))))))
    case _ => if TokenOf(k, b).Some? then JObject(TokenOf(k, b).value) else Scalar(k, b)
  }

  /** The image of a document's entries. */
  function FieldsToJson(k: Codec, fields: seq<(string, Bson)>): (r: seq<(string, Json)>)
    ensures |r| == |fields|
    ensures forall i {:trigger r[i]} :: 0 <= i < |r| ==> r[i] == (fields[i].0, ToJson(k, fields[i].1))
  {
    seq(|fields|, i requires 0 <= i < |fields| => (fields[i].0, ToJson(k, fields[i].1)))
  }

  // ---- JSON to BSON ----

  datatype JsonError =
    BadU64 | BadOid | BadDate | BadMillis | BadLong | BadInt | BadDouble | BadDecimal | BadBase64 | BadTimestamp

  type Converted = Result<Bson, JsonError>

  function OrErr<T>(o: Option<T>, wrap: T -> Bson, e: JsonError): Converted {
    match o case Some(x) => Ok(wrap(x)) case None => Err(e)
  }

  function IntToBson(k: Codec, i: JsonInt): Converted {
    if i < 0x8000_0000_0000_0000 then Ok(Int64(i))
    else OrErr(k.parseDecimal(k.intText(i)), (d: Decimal) => Decimal128(d), BadU64)
  }

  function DateToBson(k: Codec, v: Json): Converted {
    match v
    case JString(s) => OrErr(k.parseDate(s), (ms: i64) => DateTime(ms), BadDate)
    case JObject(o) =>
      var n := Get(o, KeyText(NumberLong));
      if n.None? then Err(BadDate)
      else OrErr(k.parseI64(if n.value.JString? then n.value.s else ""), (ms: i64) => DateTime(ms), BadMillis)
    case JInt(i) => if i < 0x8000_0000_0000_0000 then Ok(DateTime(i)) else Err(BadMillis)
    case JFloat(_, _) => Err(BadMillis)
    case _ => Err(BadDate)
  }

  function TimestampPart(o: seq<(string, Json)>, key: string): Option<u32> {
    var v := Get(o, key);
    if v.Some? && v.value.JInt? && 0 <= v.value.i < 0x1_0000_0000 then Some(v.value.i) else None
  }

  function TimestampToBson(k: Codec, v: Json): Converted {
    if !v.JObject? then Err(BadTimestamp)
    else
      var t, i := TimestampPart(v.fields, KeyText(Time)), TimestampPart(v.fields, KeyText(Increment));
      if t.Some? && i.Some? then Ok(Timestamp(t.value, i.value)) else Err(BadTimestamp)
  }

  /** The strings of a binary token. */
  function BinaryParts(k: Codec, v: Json): Option<(string, string)> {
    if !v.JObject? then None
    else
      var b, st := Get(v.fields, KeyText(Base64)), Get(v.fields, KeyText(SubType));
      if b.Some? && b.value.JString? && st.Some? && st.value.JString? then Some((b.value.s, st.value.s)) else None
  }

  function BinaryToBson(k: Codec, parts: (string, string)): Converted {
    var code := k.fromHex(parts.1);
    OrErr(k.fromBase64(parts.0), (bytes: seq<u8>) => Binary(if code == 0 then Generic else UserDefined(code), bytes), BadBase64)
  }

  /** The tokens of one key, None when the object is an ordinary document. */
  function SingleToken(k: Codec, name: string, v: Json): Option<Converted> {
    if name == KeyText(Oid) && v.JString? then Some(OrErr(k.parseOid(v.s), (x: int) => ObjectId(x), BadOid))
    else if name == KeyText(Date) then Some(DateToBson(k, v))
    else if name == KeyText(NumberLong) && v.JString? then Some(OrErr(k.parseI64(v.s), (x: i64) => Int64(x), BadLong))
    else if name == KeyText(NumberInt) && v.JString? then Some(OrErr(k.parseI32(v.s), (x: i32) => Int32(x), BadInt))
    else if name == KeyText(NumberDouble) && v.JString? then Some(OrErr(k.parseDouble(v.s), (x: Float) => Double(x), BadDouble))
    else if name == KeyText(NumberDecimal) && v.JString?
    then Some(OrErr(k.parseDecimal(v.s), (x: Decimal) => Decimal128(x), BadDecimal))
    else if name == KeyText(BinaryKey) && BinaryParts(k, v).Some? then Some(BinaryToBson(k, BinaryParts(k, v).value))
    else if name == KeyText(TimestampKey) then Some(TimestampToBson(k, v))
    else if name == KeyText(MinKeyKey) then Some(Ok(MinKey))
    else if name == KeyText(MaxKeyKey) then Some(Ok(MaxKey))
    else None
  }

  predicate IsRegex(k: Codec, m: seq<(string, Json)>) {
    var re := Get(m, KeyText(Regex));
    re.Some? && re.value.JString? && (|m| == 1 || (|m| == 2 && Get(m, KeyText(Options)).Some?))
  }

  function Token(k: Codec, m: seq<(string, Json)>): Option<Converted> {
    if IsRegex(k, m) then
      var o := Get(m, KeyText(Options));
      Some(Ok(RegularExpression(Get(m, KeyText(Regex)).value.s, if o.Some? && o.value.JString? then o.value.s else "")))
    else if |m| == 1 then SingleToken(k, m[0].0, m[0].1)
    else None
  }

  /** All values, or the first error. */
  function Collect(rs: seq<Converted>): (r: Result<seq<Bson>, JsonError>)
    ensures r.Ok? <==> forall i :: 0 <= i < |rs| ==> rs[i].Ok?
    ensures r.Ok? ==> |r.value| == |rs| && forall i :: 0 <= i < |rs| ==> r.value[i] == rs[i].value
  {
    if rs == [] then Ok([])
    else if rs[0].Err? then Err(rs[0].error)
    else match Collect(rs[1..]) case Ok(vs) => Ok([rs[0].value] + vs) case Err(e) => Err(e)
  }

  function Keyed(m: seq<(string, Json)>, vs: seq<Bson>): (r: seq<(string, Bson)>)
    requires |m| == |vs|
    ensures |r| == |m| && forall i {:trigger r[i]} :: 0 <= i < |r| ==> r[i] == (m[i].0, vs[i])
  {
    seq(|m|, i requires 0 <= i < |m| => (m[i].0, vs[i]))
  }

  /** `json_to_bson`. */
  function ToBson(k: Codec, j: Json): Converted {
    match j
    case JNull => Ok(Null)
    case JBool(b) => Ok(Boolean(b))
    case JInt(i) => IntToBson(k, i)
    case JFloat(m, e) => Ok(Double(Fin(m, e)))
    case JString(s) => Ok(String(s))
    case JArray(items) =>
      (match Collect(seq(|items|, i requires 0 <= i < |items| => ToBson(k, items[i])))
       case Ok(vs) => Ok(Array(vs))
       case Err(e) => Err(e))
    case JObject(m) =>
      var token := Token(k, m);
      if token.Some? then token.value
      else match Collect(seq(|m|, i requires 0 <= i < |m| => ToBson(k, m[i].1)))
        case Ok(vs) => Ok(Document(Keyed(m, vs)))
        case Err(e) => Err(e)
  }

  // ---- what survives ----

  predicate StringAt(f: Document, key: string) {
    Get(f, key).Some? && Get(f, key).value.String?
  }

  /** A document that the converter reads back as something else. */
  predicate LooksLikeToken(k: Codec, f: Document) {
    (StringAt(f, KeyText(Regex)) && (|f| == 1 || (|f| == 2 && Get(f, KeyText(Options)).Some?))) ||
    (|f| == 1 && SingleLooksLikeToken(k, f[0].0, f[0].1))
  }

  predicate SingleLooksLikeToken(k: Codec, name: string, v: Bson) {
    (v.String? && (name == KeyText(Oid) || name == KeyText(NumberLong) || name == KeyText(NumberInt) ||
                   name == KeyText(NumberDouble) || name == KeyText(NumberDecimal))) ||
    (v.Document? && name == KeyText(BinaryKey) && StringAt(v.fields, KeyText(Base64)) && StringAt(v.fields, KeyText(SubType))) ||
    name == KeyText(Date) || name == KeyText(TimestampKey) || name == KeyText(MinKeyKey) || name == KeyText(MaxKeyKey)
  }

  /** Values whose type and content come back. Lost are the 32-bit width, object ids, dates, symbols,
      code, pointers, undefined, the reserved binary subtypes, and documents that spell a token. */
  predicate Survives(k: Codec, b: Bson) {
    match b
    case Array(items) => forall i :: 0 <= i < |items| ==> Survives(k, items[i])
    case Document(f) => !LooksLikeToken(k, f) && forall i :: 0 <= i < |f| ==> Survives(k, f[i].1)
    case Binary(st, _) => st.Generic? || (st.UserDefined? && st.code != 0)
    case Int32(_) => false
    case ObjectId(_) => false
    case DateTime(_) => false
    case Symbol(_) => false
    case JavaScriptCode(_) => false
    case JavaScriptCodeWithScope(_, _) => false
    case DbPointer(_) => false
    case Undefined => false
    case _ => true
  }

  lemma GetOne<V>(key: string, v: V, x: string)
    ensures Get([(key, v)], x) == if x == key then Some(v) else None
  {
  }

  lemma GetTwo<V>(a: string, v: V, b: string, w: V, x: string)
    ensures Get([(a, v), (b, w)], x) == if x == a then Some(v) else if x == b then Some(w) else None
  {
    assert [(a, v), (b, w)][1..] == [(b, w)];
    GetOne(b, w, x);
  }

  lemma {:induction false} GetImage(k: Codec, f: Document, key: string)
    ensures Get(FieldsToJson(k, f), key) ==
            match Get(f, key) case Some(v) => Some(ToJson(k, v)) case None => None
  {
    if f != [] && f[0].0 != key {
      assert FieldsToJson(k, f)[1..] == FieldsToJson(k, f[1..]);
      GetImage(k, f[1..], key);
    }
  }

  /** A surviving value whose image is a string is that string. */
  lemma StringImage(k: Codec, b: Bson)
    requires Survives(k, b)
    ensures ToJson(k, b).JString? <==> b.String?
  {
  }

  lemma DocumentImage(k: Codec, f: Document)
    ensures ToJson(k, Document(f)) == JObject(FieldsToJson(k, f))
  {
  }

  lemma BinaryImage(k: Codec, b: Bson)
    requires Survives(k, b)
    ensures BinaryParts(k, ToJson(k, b)).Some? <==>
            b.Document? && StringAt(b.fields, KeyText(Base64)) && StringAt(b.fields, KeyText(SubType))
  {
    if b.Document? {
      DocumentImage(k, b.fields);
      StringFieldImage(k, b.fields, KeyText(Base64));
      StringFieldImage(k, b.fields, KeyText(SubType));
    } else {
      NoBase64(k, b);
    }
  }

  /** A field of surviving values reads as a string exactly when it is one. */
  lemma StringFieldImage(k: Codec, f: Document, key: string)
    requires forall i :: 0 <= i < |f| ==> Survives(k, f[i].1)
    ensures var v := Get(FieldsToJson(k, f), key);
            (v.Some? <==> Get(f, key).Some?) && (v.Some? && v.value.JString? <==> StringAt(f, key))
  {
    GetImage(k, f, key);
    if Get(f, key).Some? {
      StringImage(k, Get(f, key).value);
    }
  }

  lemma OneIsNoBinary(k: Codec, a: Key, v: Json)
    requires a != Base64
    ensures BinaryParts(k, JObject(One(KeyText(a), v))).None?
  {
    GetOne(KeyText(a), v, KeyText(Base64));
  }

  lemma TwoIsNoBinary(k: Codec, a: Key, v: Json, b: Key, w: Json)
    requires a != Base64 && b != Base64
    ensures BinaryParts(k, JObject(Two(KeyText(a), v, KeyText(b), w))).None?
  {
    GetTwo(KeyText(a), v, KeyText(b), w, KeyText(Base64));
  }

  /** No token has a base64 key at the top. */
  lemma TokenIsNoBinary(k: Codec, b: Bson)
    requires TokenOf(k, b).Some?
    ensures BinaryParts(k, JObject(TokenOf(k, b).value)).None?
  {
    if b.RegularExpression? && b.options != "" {
      TwoIsNoBinary(k, Regex, JString(b.pattern), Options, JString(b.options));
    } else {
      OneIsNoBinary(k, TokenName(b).value, TokenBody(k, b));
    }
  }

  lemma NoBase64(k: Codec, b: Bson)
    requires Survives(k, b) && !b.Document?
    ensures BinaryParts(k, ToJson(k, b)).None?
  {
    if TokenOf(k, b).Some? {
      TokenIsNoBinary(k, b);
    }
  }

  lemma SingleImage(k: Codec, name: string, v: Bson)
    requires Survives(k, v)
    ensures SingleToken(k, name, ToJson(k, v)).Some? <==> SingleLooksLikeToken(k, name, v)
  {
    var j := ToJson(k, v);
    StringImage(k, v);
    BinaryImage(k, v);
    SingleByShape(k, name, v, j);
  }

  lemma SingleByShape(k: Codec, name: string, v: Bson, j: Json)
    requires j.JString? <==> v.String?
    requires BinaryParts(k, j).Some? <==>
             v.Document? && StringAt(v.fields, KeyText(Base64)) && StringAt(v.fields, KeyText(SubType))
    ensures SingleToken(k, name, j).Some? <==> SingleLooksLikeToken(k, name, v)
  {
  }

  /** The image of a document of surviving values is a token exactly when the document looks like one. */
  lemma TokenImage(k: Codec, f: Document)
    requires forall i :: 0 <= i < |f| ==> Survives(k, f[i].1)
    ensures Token(k, FieldsToJson(k, f)).Some? <==> LooksLikeToken(k, f)
  {
    StringFieldImage(k, f, KeyText(Regex));
    StringFieldImage(k, f, KeyText(Options));
    if |f| == 1 {
      SingleImage(k, f[0].0, f[0].1);
    }
  }

  /** A token is never read as a document. */
  lemma TokenIsNoDocument(k: Codec, m: seq<(string, Json)>)
    requires Token(k, m).Some?
    ensures Token(k, m).value.Ok? ==> !Token(k, m).value.value.Document? && !Token(k, m).value.value.Array?
  {
  }

  // ---- round trips ----

  lemma TokenDecides(k: Codec, m: seq<(string, Json)>)
    requires Token(k, m).Some?
    ensures ToBson(k, JObject(m)) == Token(k, m).value
  {
  }

  lemma TokenOfOne(k: Codec, a: Key, v: Json)
    requires a != Regex
    ensures Token(k, [(KeyText(a), v)]) == SingleToken(k, KeyText(a), v)
  {
    GetOne(KeyText(a), v, KeyText(Regex));
    KeysDiffer();
  }

  lemma BinaryReads(k: Codec, st: Subtype, bytes: seq<u8>)
    requires Lawful(k)
    ensures SingleToken(k, KeyText(BinaryKey), BinaryBody(k, st, bytes)) ==
            Some(Ok(Binary(if Hex(st) == 0 then Generic else UserDefined(Hex(st)), bytes)))
  {
    var b, h := JString(k.base64(bytes)), JString(k.hex(Hex(st)));
    GetTwo(KeyText(Base64), b, KeyText(SubType), h, KeyText(Base64));
    GetTwo(KeyText(Base64), b, KeyText(SubType), h, KeyText(SubType));
  }

  lemma TimestampReads(k: Codec, t: u32, i: u32)
    ensures SingleToken(k, KeyText(TimestampKey), TimestampBody(k, t, i)) == Some(Ok(Timestamp(t, i)))
  {
    GetTwo(KeyText(Time), JInt(t), KeyText(Increment), JInt(i), KeyText(Time));
    GetTwo(KeyText(Time), JInt(t), KeyText(Increment), JInt(i), KeyText(Increment));
  }

  lemma RegexReads(k: Codec, p: string, o: string)
    ensures Token(k, One(KeyText(Regex), JString(p))) == Some(Ok(RegularExpression(p, "")))
    ensures Token(k, Two(KeyText(Regex), JString(p), KeyText(Options), JString(o))) == Some(Ok(RegularExpression(p, o)))
  {
    GetOne(KeyText(Regex), JString(p), KeyText(Regex));
    GetOne(KeyText(Regex), JString(p), KeyText(Options));
    GetTwo(KeyText(Regex), JString(p), KeyText(Options), JString(o), KeyText(Regex));
    GetTwo(KeyText(Regex), JString(p), KeyText(Options), JString(o), KeyText(Options));
  }

  /** What the one-key token of a value is read as. */
  lemma SingleReads(k: Codec, b: Bson)
    requires Lawful(k) && TokenName(b).Some? && !b.RegularExpression?
    ensures var r := SingleToken(k, KeyText(TokenName(b).value), TokenBody(k, b));
            r.Some? && (r.value == Ok(b) <==> Survives(k, b))
  {
    match b
    case Binary(st, bytes) => BinaryReads(k, st, bytes);
    case Timestamp(t, i) => TimestampReads(k, t, i);
    case Double(f) => DoubleReads(k, f);
    case Decimal128(d) => DecimalReads(k, d);
    case _ => MinMaxRead(k);
  }

  lemma DoubleReads(k: Codec, f: Float)
    requires Lawful(k) && !f.Fin?
    ensures SingleToken(k, KeyText(NumberDouble), JString(k.double(f))) == Some(Ok(Double(f)))
  {
    KeysDiffer();
  }

  lemma DecimalReads(k: Codec, d: Decimal)
    requires Lawful(k)
    ensures SingleToken(k, KeyText(NumberDecimal), JString(k.decimal(d))) == Some(Ok(Decimal128(d)))
  {
    KeysDiffer();
  }

  lemma MinMaxRead(k: Codec)
    ensures SingleToken(k, KeyText(MinKeyKey), JInt(1)) == Some(Ok(MinKey))
    ensures SingleToken(k, KeyText(MaxKeyKey), JInt(1)) == Some(Ok(MaxKey))
  {
    KeysDiffer();
  }

  /** What a value's own token is read as. */
  lemma TokenReads(k: Codec, b: Bson)
    requires Lawful(k) && TokenOf(k, b).Some?
    ensures Token(k, TokenOf(k, b).value).Some?
    ensures Token(k, TokenOf(k, b).value).value == Ok(b) <==> Survives(k, b)
  {
    if b.RegularExpression? {
      RegexReads(k, b.pattern, b.options);
    } else {
      SingleReads(k, b);
      TokenOfOne(k, TokenName(b).value, TokenBody(k, b));
    }
  }

  lemma ScalarRoundTripIff(k: Codec, b: Bson)
    requires Lawful(k) && !b.Array? && !b.Document? && !b.JavaScriptCodeWithScope? && !b.DbPointer?
    ensures ToBson(k, ToJson(k, b)) == Ok(b) <==> Survives(k, b)
  {
    if TokenOf(k, b).Some? {
      TokenReads(k, b);
      TokenDecides(k, TokenOf(k, b).value);
    }
  }

  /** Nothing read from JSON is a pointer or code with a scope. */
  lemma NeverRead(k: Codec, j: Json)
    ensures ToBson(k, j).Ok? ==> !ToBson(k, j).value.DbPointer? && !ToBson(k, j).value.JavaScriptCodeWithScope?
  {
  }

  lemma ArrayRoundTripIff(k: Codec, items: seq<Bson>)
    requires forall i :: 0 <= i < |items| ==> (ToBson(k, ToJson(k, items[i])) == Ok(items[i]) <==> Survives(k, items[i]))
    ensures ToBson(k, ToJson(k, Array(items))) == Ok(Array(items)) <==> Survives(k, Array(items))
  {
    var js := ToJson(k, Array(items)).items;
    var rs := seq(|js|, i requires 0 <= i < |js| => ToBson(k, js[i]));
    CollectIs(rs, items);
    assert forall i :: 0 <= i < |items| ==> rs[i] == ToBson(k, ToJson(k, items[i]));
  }

  lemma CollectIs(rs: seq<Converted>, vs: seq<Bson>)
    requires |rs| == |vs|
    ensures Collect(rs) == Ok(vs) <==> forall i :: 0 <= i < |rs| ==> rs[i] == Ok(vs[i])
  {
    if Collect(rs) == Ok(vs) {
      forall i | 0 <= i < |rs| ensures rs[i] == Ok(vs[i]) {
        assert rs[i].Ok? && vs[i] == rs[i].value;
      }
    }
    var c := Collect(rs);
    if c.Ok? && forall i :: 0 <= i < |rs| ==> c.value[i] == vs[i] {
      assert c.value == vs;
    }
  }

  lemma DocumentRoundTripIff(k: Codec, f: Document)
    requires Lawful(k)
    requires forall i :: 0 <= i < |f| ==> (ToBson(k, ToJson(k, f[i].1)) == Ok(f[i].1) <==> Survives(k, f[i].1))
    ensures ToBson(k, ToJson(k, Document(f))) == Ok(Document(f)) <==> Survives(k, Document(f))
  {
    var m := FieldsToJson(k, f);
    DocumentImage(k, f);
    if Token(k, m).Some? {
      TokenDecides(k, m);
      TokenIsNoDocument(k, m);
    } else {
      FieldsRead(k, f, m);
    }
    if forall i :: 0 <= i < |f| ==> Survives(k, f[i].1) {
      TokenImage(k, f);
    }
  }

  lemma FieldsRead(k: Codec, f: Document, m: seq<(string, Json)>)
    requires |m| == |f| && Token(k, m).None? && forall i :: 0 <= i < |f| ==> m[i].0 == f[i].0
    ensures ToBson(k, JObject(m)) == Ok(Document(f)) <==> forall i :: 0 <= i < |f| ==> ToBson(k, m[i].1) == Ok(f[i].1)
  {
    var rs := seq(|m|, i requires 0 <= i < |m| => ToBson(k, m[i].1));
    var vs := seq(|f|, i requires 0 <= i < |f| => f[i].1);
    CollectIs(rs, vs);
    if Collect(rs).Ok? {
      KeyedIs(m, Collect(rs).value, f, vs);
    }
  }

  lemma KeyedIs(m: seq<(string, Json)>, got: seq<Bson>, f: Document, vs: seq<Bson>)
    requires |m| == |got| == |f| == |vs| && forall i :: 0 <= i < |f| ==> m[i].0 == f[i].0 && vs[i] == f[i].1
    ensures got == vs <==> Keyed(m, got) == f
  {
    if Keyed(m, got) == f {
      forall i | 0 <= i < |got| ensures got[i] == vs[i] {
        assert Keyed(m, got)[i] == f[i];
      }
    }
  }

  /** BSON to JSON and back is the identity on exactly the surviving values, however they are nested. */
  lemma {:induction false} RoundTripIff(k: Codec, b: Bson)
    requires Lawful(k)
    ensures ToBson(k, ToJson(k, b)) == Ok(b) <==> Survives(k, b)
  {
    match b
    case Array(items) =>
      forall i | 0 <= i < |items| ensures ToBson(k, ToJson(k, items[i])) == Ok(items[i]) <==> Survives(k, items[i]) {
        RoundTripIff(k, items[i]);
      }
      ArrayRoundTripIff(k, items);
    case Document(f) =>
      forall i | 0 <= i < |f| ensures ToBson(k, ToJson(k, f[i].1)) == Ok(f[i].1) <==> Survives(k, f[i].1) {
        RoundTripIff(k, f[i].1);
      }
      DocumentRoundTripIff(k, f);
    case JavaScriptCodeWithScope(_, _) => NeverRead(k, ToJson(k, b));
    case DbPointer(_) => NeverRead(k, ToJson(k, b));
    case _ => ScalarRoundTripIff(k, b);
  }

  // ---- JSON to BSON and back ----

  /** No object is read as a token. */
  predicate TokenFree(k: Codec, j: Json) {
    match j
    case JArray(items) => forall i :: 0 <= i < |items| ==> TokenFree(k, items[i])
    case JObject(m) => Token(k, m).None? && forall i :: 0 <= i < |m| ==> TokenFree(k, m[i].1)
    case _ => true
  }

  /** Every integer is a signed 64-bit one. */
  predicate SignedInts(j: Json) {
    match j
    case JInt(i) => i < 0x8000_0000_0000_0000
    case JArray(items) => forall i :: 0 <= i < |items| ==> SignedInts(items[i])
    case JObject(m) => forall i :: 0 <= i < |m| ==> SignedInts(m[i].1)
    case _ => true
  }

  /** What the client reads after writing `j`. */
  function Again(k: Codec, j: Json): Option<Json> {
    var r := ToBson(k, j);
    if r.Ok? then Some(ToJson(k, r.value)) else None
  }

  lemma ArrayAgainIff(k: Codec, items: seq<Json>)
    requires forall i :: 0 <= i < |items| ==> (Again(k, items[i]) == Some(items[i]) <==> SignedInts(items[i]))
    ensures Again(k, JArray(items)) == Some(JArray(items)) <==> SignedInts(JArray(items))
  {
    var rs := seq(|items|, i requires 0 <= i < |items| => ToBson(k, items[i]));
    var c := Collect(rs);
    if c.Ok? {
      var back := ToJson(k, Array(c.value));
      assert back.JArray? && |back.items| == |items|;
      forall i | 0 <= i < |items| ensures back.items[i] == ToJson(k, rs[i].value) && rs[i] == ToBson(k, items[i]) {
      }
      if back.items == items {
        forall i | 0 <= i < |items| ensures SignedInts(items[i]) {
          assert Again(k, items[i]) == Some(back.items[i]);
        }
      }
    } else {
      var i :| 0 <= i < |rs| && rs[i].Err?;
      assert Again(k, items[i]) == None;
    }
  }

  lemma ObjectAgainIff(k: Codec, m: seq<(string, Json)>)
    requires Token(k, m).None?
    requires forall i :: 0 <= i < |m| ==> (Again(k, m[i].1) == Some(m[i].1) <==> SignedInts(m[i].1))
    ensures Again(k, JObject(m)) == Some(JObject(m)) <==> SignedInts(JObject(m))
  {
    var rs := seq(|m|, i requires 0 <= i < |m| => ToBson(k, m[i].1));
    var c := Collect(rs);
    if c.Ok? {
      var f := Keyed(m, c.value);
      DocumentImage(k, f);
      var back := FieldsToJson(k, f);
      forall i | 0 <= i < |m| ensures back[i] == (m[i].0, ToJson(k, rs[i].value)) && rs[i] == ToBson(k, m[i].1) {
      }
      if back == m {
        forall i | 0 <= i < |m| ensures SignedInts(m[i].1) {
          assert Again(k, m[i].1) == Some(back[i].1);
        }
      } else if SignedInts(JObject(m)) {
        forall i | 0 <= i < |m| ensures back[i] == m[i] {
          assert Again(k, m[i].1) == Some(m[i].1);
        }
      }
    } else {
      var i :| 0 <= i < |rs| && rs[i].Err?;
      assert Again(k, m[i].1) == None;
    }
  }

  lemma NoLargeInt(k: Codec, i: JsonInt)
    ensures Again(k, JInt(i)) == Some(JInt(i)) <==> i < 0x8000_0000_0000_0000
  {
  }

  /** JSON without token objects comes back unchanged if and only if its integers fit 64 signed bits. */
  lemma {:induction false} JsonRoundTripIff(k: Codec, j: Json)
    requires TokenFree(k, j)
    ensures Again(k, j) == Some(j) <==> SignedInts(j)
  {
    match j
    case JArray(items) =>
      forall i | 0 <= i < |items| ensures Again(k, items[i]) == Some(items[i]) <==> SignedInts(items[i]) {
        JsonRoundTripIff(k, items[i]);
      }
      ArrayAgainIff(k, items);
    case JObject(m) =>
      forall i | 0 <= i < |m| ensures Again(k, m[i].1) == Some(m[i].1) <==> SignedInts(m[i].1) {
        JsonRoundTripIff(k, m[i].1);
      }
      ObjectAgainIff(k, m);
    case JInt(i) => NoLargeInt(k, i);
    case _ =>
  }
}
