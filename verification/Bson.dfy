/** BSON values and documents, as src/dbq.rs reads and writes them. */
module BsonValues {

  import opened Prelude

  /** A binary64 value, mantissa times a power of two when finite; the sign of zero is left out. */
  datatype Float = NaN | NegInf | Fin(mantissa: int, exponent: int) | PosInf

  /** A decimal128 value, coefficient times a power of ten when finite (1.0 and 1.00 differ). */
  datatype Decimal = DecimalNaN | DecimalNegInf | DecimalFin(coefficient: int, exponent: int) | DecimalPosInf

  datatype Subtype = Generic | UserDefined(code: u8) | Reserved(code: u8)

  datatype Bson =
    | MinKey
    | Null
    | Undefined
    | Double(d: Float)
    | Int32(i: i32)
    | Int64(l: i64)
    | Decimal128(dec: Decimal)
    | Symbol(symbol: string)
    | String(s: string)
    | Document(fields: seq<(string, Bson)>)
    | Array(items: seq<Bson>)
    | Binary(subtype: Subtype, bytes: seq<u8>)
    | ObjectId(id: int)
    | DbPointer(ns: string)
    | Boolean(b: bool)
    | DateTime(ms: i64)
    | Timestamp(time: u32, increment: u32)
    | RegularExpression(pattern: string, options: string)
    | JavaScriptCode(code: string)
    | JavaScriptCodeWithScope(scoped: string, scope: seq<(string, Bson)>)
    | MaxKey

  /** A document: its top-level entries in stored order, keys pairwise different. */
  type Document = seq<(string, Bson)>

  predicate UniqueKeys<V>(d: seq<(string, V)>) {
    forall i, j :: 0 <= i < j < |d| ==> d[i].0 != d[j].0
  }

  /** The index of a key, or the length when it is absent. */
  function KeyIndex<V>(d: seq<(string, V)>, key: string): (i: nat)
    ensures i <= |d| && (i < |d| ==> d[i].0 == key)
  {
    if d == [] || d[0].0 == key then 0 else 1 + KeyIndex(d[1..], key)
  }

  /** Top-level lookup, `Document::get`. */
  function Get<V>(d: seq<(string, V)>, key: string): Option<V> {
    var i := KeyIndex(d, key);
    if i < |d| then Some(d[i].1) else None
  }

  /** `Document::insert`: overwrites the entry of `key` in place, or appends one. */
  function Insert<V>(d: seq<(string, V)>, key: string, v: V): seq<(string, V)> {
    var i := KeyIndex(d, key);
    if i < |d| then d[i := (key, v)] else d + [(key, v)]
  }

  lemma {:induction false} KeyIndexAbsent<V>(d: seq<(string, V)>, key: string)
    ensures KeyIndex(d, key) == |d| <==> forall i :: 0 <= i < |d| ==> d[i].0 != key
  {
    if d != [] && d[0].0 != key {
      KeyIndexAbsent(d[1..], key);
      assert forall i :: 0 <= i < |d| ==> i == 0 || d[i] == d[1..][i - 1];
    }
  }

  lemma {:induction false} KeyIndexAt<V>(d: seq<(string, V)>, k: nat)
    requires k < |d| && UniqueKeys(d)
    ensures KeyIndex(d, d[k].0) == k
  {
    if k > 0 {
      KeyIndexAt(d[1..], k - 1);
    }
  }
}
