/** The JSON tree the response reshaper and the test comparison work on, as a value.
    An object keeps its members in insertion order, as Jackson's `ObjectNode` does. */
module Json {
  import opened Wrappers
  import Strings

  datatype Json =
    | JNull
    | JBool(b: bool)
    | JNum(n: int)
    | JStr(s: string)
    | JArray(items: seq<Json>)
    | JObject(fields: seq<Member>)

  datatype Member = Member(key: string, value: Json)

  function Keys(fields: seq<Member>): (r: seq<string>)
    ensures |r| == |fields|
    ensures forall i :: 0 <= i < |fields| ==> r[i] == fields[i].key
  {
    seq(|fields|, i requires 0 <= i < |fields| => fields[i].key)
  }

  predicate DistinctKeys(fields: seq<Member>) {
    forall i, j :: 0 <= i < j < |fields| ==> fields[i].key != fields[j].key
  }

  /** Every object in the tree has pairwise distinct keys, as every `ObjectNode` has. */
  predicate WellFormed(j: Json) {
    match j
    case JArray(items) => WellFormedItems(items)
    case JObject(fields) => DistinctKeys(fields) && WellFormedFields(fields)
    case _ => true
  }

  predicate WellFormedItems(items: seq<Json>) {
    forall i :: 0 <= i < |items| ==> WellFormed(items[i])
  }

  predicate WellFormedFields(fields: seq<Member>) {
    forall i :: 0 <= i < |fields| ==> WellFormed(fields[i].value)
  }

  /** Position of the first member named `k`. */
  function IndexOf(fields: seq<Member>, k: string): (r: Option<nat>)
    ensures r.Some? ==> r.value < |fields| && fields[r.value].key == k
    ensures r.Some? ==> forall i :: 0 <= i < r.value ==> fields[i].key != k
    ensures r.None? ==> k !in Keys(fields)
  {
    if |fields| == 0 then None
    else if fields[0].key == k then Some(0)
    else match IndexOf(fields[1..], k)
      case None => None
      case Some(i) => Some(i + 1)
  }

  /** `node.get(k)`: the value of member `k`, if there is one. */
  function Get(fields: seq<Member>, k: string): Option<Json> {
    match IndexOf(fields, k)
    case None => None
    case Some(i) => Some(fields[i].value)
  }

  /** `node.set(k, v)`: replaces the value of an existing member in place, or appends. */
  function Set(fields: seq<Member>, k: string, v: Json): (r: seq<Member>)
    ensures Get(r, k) == Some(v)
    ensures forall k' :: k' != k ==> Get(r, k') == Get(fields, k')
    ensures k in Keys(fields) ==> Keys(r) == Keys(fields)
    ensures k !in Keys(fields) ==> Keys(r) == Keys(fields) + [k]
  {
    match IndexOf(fields, k)
    case None =>
      var r := fields + [Member(k, v)];
      assert Keys(r) == Keys(fields) + [k];
      assert IndexOf(r, k) == Some(|fields|) by { IndexOfAppend(fields, k, v, k); }
      forall k' | k' != k ensures Get(r, k') == Get(fields, k') {
        IndexOfAppend(fields, k, v, k');
      }
      r
    case Some(i) =>
      var r := fields[i := Member(k, v)];
      assert Keys(r) == Keys(fields);
      forall k' | k' != k ensures Get(r, k') == Get(fields, k') {
        IndexOfUpdate(fields, i, v, k');
      }
      IndexOfUpdate(fields, i, v, k);
      r
  }

  lemma {:induction false} IndexOfAppend(fields: seq<Member>, k: string, v: Json, k': string)
    requires k !in Keys(fields)
    ensures IndexOf(fields + [Member(k, v)], k') ==
              if k' in Keys(fields) then IndexOf(fields, k')
              else if k' == k then Some(|fields|) else None
  {
    if |fields| > 0 {
      assert (fields + [Member(k, v)])[1..] == fields[1..] + [Member(k, v)];
      assert Keys(fields)[1..] == Keys(fields[1..]);
      IndexOfAppend(fields[1..], k, v, k');
    }
  }

  lemma {:induction false} IndexOfUpdate(fields: seq<Member>, i: nat, v: Json, k': string)
    requires i < |fields|
    ensures IndexOf(fields[i := Member(fields[i].key, v)], k') == IndexOf(fields, k')
  {
    if i > 0 {
      assert fields[i := Member(fields[i].key, v)][1..] == fields[1..][i - 1 := Member(fields[i].key, v)];
      IndexOfUpdate(fields[1..], i - 1, v, k');
    }
  }

  /** `node.remove(k)`: drops every member named `k` and keeps the rest in order. */
  function Remove(fields: seq<Member>, k: string): (r: seq<Member>)
    ensures forall m :: m in r <==> m in fields && m.key != k
  {
    if |fields| == 0 then []
    else if fields[0].key == k then Remove(fields[1..], k)
    else [fields[0]] + Remove(fields[1..], k)
  }

  lemma {:induction false} RemoveGet(fields: seq<Member>, k: string, k': string)
    ensures Get(Remove(fields, k), k') == if k' == k then None else Get(fields, k')
  {
    if |fields| > 0 {
      RemoveGet(fields[1..], k, k');
      if fields[0].key != k {
        assert ([fields[0]] + Remove(fields[1..], k))[1..] == Remove(fields[1..], k);
      }
    }
  }

  lemma RemoveKeys(fields: seq<Member>, k: string, k': string)
    ensures k' in Keys(Remove(fields, k)) <==> k' in Keys(fields) && k' != k
  {
    var r := Remove(fields, k);
    if k' in Keys(r) {
      var i :| 0 <= i < |r| && r[i].key == k';
      assert r[i] in fields;
    }
    if k' in Keys(fields) && k' != k {
      var i :| 0 <= i < |fields| && fields[i].key == k';
      assert fields[i] in r;
    }
  }

  /** Number of nodes in a tree; a member value and an array element are smaller
      than the node that holds them. */
  function Size(j: Json): (r: nat)
    ensures r >= 1
  {
    match j
    case JArray(items) => 1 + SizeItems(items)
    case JObject(fields) => 1 + SizeFields(fields)
    case _ => 1
  }

  function SizeItems(items: seq<Json>): nat {
    if |items| == 0 then 0 else Size(items[0]) + SizeItems(items[1..])
  }

  function SizeFields(fields: seq<Member>): nat {
    if |fields| == 0 then 0 else Size(fields[0].value) + SizeFields(fields[1..])
  }

  lemma {:induction false} ItemSmaller(items: seq<Json>, i: nat)
    requires i < |items|
    ensures Size(items[i]) <= SizeItems(items)
  {
    if i > 0 { ItemSmaller(items[1..], i - 1); }
  }

  lemma {:induction false} FieldSmaller(fields: seq<Member>, i: nat)
    requires i < |fields|
    ensures Size(fields[i].value) <= SizeFields(fields)
  {
    if i > 0 { FieldSmaller(fields[1..], i - 1); }
  }

  /** Jackson's `asText()`: the text of a scalar, the empty text for a container. */
  function AsText(j: Json): string {
    match j
    case JNull => "null"
    case JBool(b) => if b then "true" else "false"
    case JNum(n) => if n < 0 then "-" + Strings.Digits(-n) else Strings.Digits(n)
    case JStr(s) => s
    case _ => ""
  }

  /** No key anywhere in the tree contains `d`. */
  ghost predicate KeysAvoid(j: Json, d: string) {
    match j
    case JArray(items) => forall i :: 0 <= i < |items| ==> KeysAvoid(items[i], d)
    case JObject(fields) =>
      forall i :: 0 <= i < |fields| ==>
        (forall p :: !Strings.OccursAt(fields[i].key, d, p)) && KeysAvoid(fields[i].value, d)
    case _ => true
  }

  lemma GetSmaller(fields: seq<Member>, k: string)
    requires Get(fields, k).Some?
    ensures Size(Get(fields, k).value) <= SizeFields(fields)
  {
    FieldSmaller(fields, IndexOf(fields, k).value);
  }

  lemma {:induction false} SizeFieldsAppend(fields: seq<Member>, m: Member)
    ensures SizeFields(fields + [m]) == SizeFields(fields) + Size(m.value)
  {
    if |fields| > 0 {
      assert (fields + [m])[1..] == fields[1..] + [m];
      SizeFieldsAppend(fields[1..], m);
    }
  }

  lemma {:induction false} SizeFieldsUpdate(fields: seq<Member>, i: nat, m: Member)
    requires i < |fields|
    ensures SizeFields(fields[i := m]) == SizeFields(fields) - Size(fields[i].value) + Size(m.value)
  {
    if i > 0 {
      assert fields[i := m][1..] == fields[1..][i - 1 := m];
      SizeFieldsUpdate(fields[1..], i - 1, m);
    }
  }

  /** Setting a member adds the new value's nodes and drops the old value's, if any. */
  lemma SetSize(fields: seq<Member>, k: string, v: Json)
    ensures Get(fields, k).Some? ==>
              SizeFields(Set(fields, k, v)) == SizeFields(fields) - Size(Get(fields, k).value) + Size(v)
    ensures Get(fields, k).None? ==> SizeFields(Set(fields, k, v)) == SizeFields(fields) + Size(v)
  {
    match IndexOf(fields, k)
    case None => SizeFieldsAppend(fields, Member(k, v));
    case Some(i) => SizeFieldsUpdate(fields, i, Member(k, v));
  }

  lemma {:induction false} RemoveShrinks(fields: seq<Member>, k: string)
    ensures SizeFields(Remove(fields, k)) <= SizeFields(fields)
  {
    if |fields| > 0 {
      RemoveShrinks(fields[1..], k);
      if fields[0].key != k {
        assert ([fields[0]] + Remove(fields[1..], k))[1..] == Remove(fields[1..], k);
      }
    }
  }

  /** Removing a present member drops at least its value's nodes. */
  lemma {:induction false} RemoveSize(fields: seq<Member>, k: string)
    requires Get(fields, k).Some?
    ensures SizeFields(Remove(fields, k)) <= SizeFields(fields) - Size(Get(fields, k).value)
  {
    if fields[0].key == k {
      RemoveShrinks(fields[1..], k);
    } else {
      assert Get(fields[1..], k) == Get(fields, k);
      RemoveSize(fields[1..], k);
      assert ([fields[0]] + Remove(fields[1..], k))[1..] == Remove(fields[1..], k);
    }
  }
}
