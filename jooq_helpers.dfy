/** The response reshaper of `JooqHelpers.kt`, which edits the JSON tree in place:
    in every object, each key ending in `-singleton` whose value is an array is
    replaced by the key without the suffix, holding the array's only element (or
    null); every other value is reshaped recursively. Also the wrapping of the
    result as `{"data":…}`. */
module JooqHelpers {
  import opened Wrappers
  import opened Json
  import Strings

  const SingletonSuffix: string := "-singleton"

  /** `substringBeforeLast("-singleton")` */
  function StripSuffix(k: string): string {
    Strings.SubstringBeforeLast(k, SingletonSuffix)
  }

  /** Whether the member under `k` is unwrapped instead of reshaped recursively. */
  predicate Unwraps(k: string, v: Json) {
    Strings.EndsWith(k, SingletonSuffix) && v.JArray?
  }

  // ---------------------------------------------------------------------------
  // The reshaping, as a function of the tree

  /** What `unwrapSingletonArraysRecursively` turns a tree into. */
  function Unsingleton(j: Json): (r: Result<Json>)
    decreases Size(j), 0, 0
    ensures r.Ok? ==> Size(r.value) <= Size(j)
    ensures r.Ok? && j.JArray? ==> r.value.JArray? && |r.value.items| == |j.items|
    ensures r.Ok? && j.JObject? ==> r.value.JObject?
    ensures !j.JArray? && !j.JObject? ==> r == Ok(j)
  {
    match j
    case JObject(fields) =>
      var fs :- UnsingletonFields(Keys(fields), fields);
      Ok(JObject(fs))
    case JArray(items) =>
      var xs :- UnsingletonItems(items);
      Ok(JArray(xs))
    case _ => Ok(j)
  }

  function UnsingletonItems(items: seq<Json>): (r: Result<seq<Json>>)
    decreases SizeItems(items), 1, 0
    ensures r.Ok? ==> |r.value| == |items| && SizeItems(r.value) <= SizeItems(items)
  {
    if |items| == 0 then Ok([])
    else
      var x :- Unsingleton(items[0]);
      var rest :- UnsingletonItems(items[1..]);
      assert ([x] + rest)[1..] == rest;
      Ok([x] + rest)
  }

  /** The object's members after visiting the keys `keys` in order, starting from the
      members `fs`. */
  function UnsingletonFields(keys: seq<string>, fs: seq<Member>): (r: Result<seq<Member>>)
    decreases SizeFields(fs), 1, |keys|
    ensures r.Ok? ==> SizeFields(r.value) <= SizeFields(fs)
  {
    if |keys| == 0 then Ok(fs)
    else
      var next :- Step(keys[0], fs);
      UnsingletonFields(keys[1..], next)
  }

  /** One turn of the `forEach` over the field names, on the members as they are at
      that turn. */
  function Step(k: string, fs: seq<Member>): (r: Result<seq<Member>>)
    decreases SizeFields(fs), 1, 0
    ensures r.Ok? ==> SizeFields(r.value) <= SizeFields(fs)
  {
    match Get(fs, k)
    case None => Err("no field " + k)
    case Some(v) =>
      GetSmaller(fs, k);
      if Unwraps(k, v) then
        if |v.items| > 1 then Err("Expected singleton array")
        else
          var e := if |v.items| == 0 then JNull else v.items[0];
          StepSize(k, fs, e);
          Ok(Remove(Set(fs, StripSuffix(k), e), k))
      else
        var c :- Unsingleton(v);
        SetSize(fs, k, c);
        Ok(Set(fs, k, c))
  }

  lemma StripSuffixShorter(k: string)
    requires Strings.EndsWith(k, SingletonSuffix)
    ensures StripSuffix(k) == k[..|k| - |SingletonSuffix|] && StripSuffix(k) != k
  {
    Strings.SubstringBeforeLastOfSuffixed(k, SingletonSuffix);
  }

  lemma StepSize(k: string, fs: seq<Member>, e: Json)
    requires Get(fs, k).Some? && Unwraps(k, Get(fs, k).value) && |Get(fs, k).value.items| <= 1
    requires e == if |Get(fs, k).value.items| == 0 then JNull else Get(fs, k).value.items[0]
    ensures SizeFields(Remove(Set(fs, StripSuffix(k), e), k)) <= SizeFields(fs)
  {
    var v := Get(fs, k).value;
    StripSuffixShorter(k);
    var fs1 := Set(fs, StripSuffix(k), e);
    SetSize(fs, StripSuffix(k), e);
    assert Get(fs1, k) == Some(v);
    RemoveSize(fs1, k);
    if |v.items| == 1 {
      ItemSmaller(v.items, 0);
    }
  }

  // ---------------------------------------------------------------------------
  // The in-place reshaping

  /** `unwrapSingletonArraysRecursively(node)`: an object node's members are edited
      in place, an array node's elements reshaped one by one, a scalar kept. */
  method UnwrapSingletonArraysRecursively(node: Json) returns (r: Result<Json>)
    decreases Size(node), 1
    ensures r == Unsingleton(node)
  {
    match node
    case JObject(fields) =>
      var fs := UnwrapObjectMembers(fields);
      if fs.Err? {
        return Err(fs.message);
      }
      return Ok(JObject(fs.value));
    case JArray(items) =>
      var xs := UnwrapArrayItems(items);
      if xs.Err? {
        return Err(xs.message);
      }
      return Ok(JArray(xs.value));
    case _ =>
      return Ok(node);
  }

  /** The object branch: one field name at a time, over the field names the node
      had on entry, on the members as the earlier turns left them. */
  method UnwrapObjectMembers(fields: seq<Member>) returns (r: Result<seq<Member>>)
    decreases SizeFields(fields) + 1, 0
    ensures r == UnsingletonFields(Keys(fields), fields)
  {
    var keys := Keys(fields);
    var fs := fields;
    var i := 0;
    while i < |keys|
      invariant 0 <= i <= |keys|
      invariant SizeFields(fs) <= SizeFields(fields)
      invariant UnsingletonFields(keys, fields) == UnsingletonFields(keys[i..], fs)
    {
      assert keys[i..][1..] == keys[i + 1..];
      var k := keys[i];
      var got := Get(fs, k);
      if got.None? {
        assert Step(k, fs) == Err("no field " + k);
        FieldsTurnErr(keys[i..], fs);
        return Err("no field " + k);
      }
      var v := got.value;
      var next: seq<Member>;
      if Unwraps(k, v) {
        if |v.items| > 1 {
          assert Step(k, fs) == Err("Expected singleton array");
          FieldsTurnErr(keys[i..], fs);
          return Err("Expected singleton array");
        }
        var e := if |v.items| == 0 then JNull else v.items[0];
        next := Set(fs, StripSuffix(k), e);
        next := Remove(next, k);
        assert Step(k, fs) == Ok(next);
      } else {
        GetSmaller(fs, k);
        var c := UnwrapSingletonArraysRecursively(v);
        if c.Err? {
          assert Step(k, fs) == Err(c.message);
          FieldsTurnErr(keys[i..], fs);
          return Err(c.message);
        }
        next := Set(fs, k, c.value);
        assert Step(k, fs) == Ok(next);
      }
      FieldsTurnOk(keys[i..], fs, next);
      fs := next;
      i := i + 1;
    }
    return Ok(fs);
  }

  lemma FieldsTurnOk(keys: seq<string>, fs: seq<Member>, next: seq<Member>)
    requires |keys| > 0 && Step(keys[0], fs) == Ok(next)
    ensures UnsingletonFields(keys, fs) == UnsingletonFields(keys[1..], next)
  {
  }

  lemma FieldsTurnErr(keys: seq<string>, fs: seq<Member>)
    requires |keys| > 0 && Step(keys[0], fs).Err?
    ensures UnsingletonFields(keys, fs) == Err(Step(keys[0], fs).message)
  {
  }

  /** The array branch: each element reshaped in turn, the first failure ending it. */
  method UnwrapArrayItems(items: seq<Json>) returns (r: Result<seq<Json>>)
    decreases SizeItems(items) + 1, 0
    ensures r == UnsingletonItems(items)
  {
    var xs: seq<Json> := [];
    var i := 0;
    assert items[0..] == items;
    match UnsingletonItems(items) {
      case Ok(ys) => assert [] + ys == ys;
      case Err(_) =>
    }
    while i < |items|
      invariant 0 <= i <= |items|
      invariant UnsingletonItems(items) == Prepend(xs, UnsingletonItems(items[i..]))
    {
      assert items[i..][1..] == items[i + 1..];
      ItemSmaller(items, i);
      var c := UnwrapSingletonArraysRecursively(items[i]);
      if c.Err? {
        return Err(c.message);
      }
      assert items[i..][0] == items[i];
      match UnsingletonItems(items[i + 1..]) {
        case Ok(ys) => assert xs + ([c.value] + ys) == (xs + [c.value]) + ys;
        case Err(_) =>
      }
      xs := xs + [c.value];
      i := i + 1;
    }
    assert items[i..] == [] && xs + [] == xs;
    return Ok(xs);
  }

  function Prepend(xs: seq<Json>, rest: Result<seq<Json>>): Result<seq<Json>> {
    match rest
    case Ok(ys) => Ok(xs + ys)
    case Err(e) => Err(e)
  }

  // ---------------------------------------------------------------------------
  // Properties

  /** A `-singleton` key holding an array: a longer array fails; otherwise the key
      without the suffix is set to null or to the only element, the suffixed key is
      removed, and no other member changes. */
  lemma StepUnwraps(k: string, fs: seq<Member>)
    requires Get(fs, k).Some? && Unwraps(k, Get(fs, k).value)
    ensures var items := Get(fs, k).value.items;
            (Step(k, fs).Ok? <==> |items| <= 1) &&
            (Step(k, fs).Ok? ==>
               && Get(Step(k, fs).value, StripSuffix(k)) == Some(if |items| == 0 then JNull else items[0])
               && Get(Step(k, fs).value, k).None?
               && forall k' :: k' != k && k' != StripSuffix(k) ==> Get(Step(k, fs).value, k') == Get(fs, k'))
  {
    var items := Get(fs, k).value.items;
    if |items| <= 1 {
      var e := if |items| == 0 then JNull else items[0];
      StripSuffixShorter(k);
      var fs1 := Set(fs, StripSuffix(k), e);
      RemoveGet(fs1, k, StripSuffix(k));
      RemoveGet(fs1, k, k);
      forall k' | k' != k && k' != StripSuffix(k) ensures Get(Remove(fs1, k), k') == Get(fs, k') {
        RemoveGet(fs1, k, k');
      }
    }
  }

  /** Any other member keeps its place and takes its reshaped value. */
  lemma StepRecurses(k: string, fs: seq<Member>)
    requires Get(fs, k).Some? && !Unwraps(k, Get(fs, k).value)
    ensures Step(k, fs).Ok? <==> Unsingleton(Get(fs, k).value).Ok?
    ensures Step(k, fs).Ok? ==>
              && Keys(Step(k, fs).value) == Keys(fs)
              && Get(Step(k, fs).value, k) == Some(Unsingleton(Get(fs, k).value).value)
              && forall k' :: k' != k ==> Get(Step(k, fs).value, k') == Get(fs, k')
  {
    assert k in Keys(fs) by {
      var i := IndexOf(fs, k).value;
      assert Keys(fs)[i] == k;
    }
  }

  /** Only keys ending in `-singleton` ever leave an object. */
  lemma {:induction false} OnlySuffixedKeysRemoved(keys: seq<string>, fs: seq<Member>, k: string)
    requires UnsingletonFields(keys, fs).Ok?
    requires k in Keys(fs) && !Strings.EndsWith(k, SingletonSuffix)
    ensures k in Keys(UnsingletonFields(keys, fs).value)
  {
    if |keys| > 0 {
      var next := Step(keys[0], fs).value;
      var v := Get(fs, keys[0]).value;
      if Unwraps(keys[0], v) {
        var e := if |v.items| == 0 then JNull else v.items[0];
        var fs1 := Set(fs, StripSuffix(keys[0]), e);
        assert k in Keys(fs1);
        RemoveKeys(fs1, keys[0], k);
      }
      OnlySuffixedKeysRemoved(keys[1..], next, k);
    }
  }

  /** A tree with no `-singleton` in any key, and distinct keys in every object, comes
      back unchanged. */
  lemma {:induction false} UnsingletonPlain(j: Json)
    requires WellFormed(j) && KeysAvoid(j, SingletonSuffix)
    ensures Unsingleton(j) == Ok(j)
    decreases Size(j), 0, 0
  {
    match j
    case JObject(fields) =>
      UnsingletonFieldsPlain(Keys(fields), fields);
    case JArray(items) => UnsingletonItemsPlain(items);
    case _ =>
  }

  lemma {:induction false} UnsingletonItemsPlain(items: seq<Json>)
    requires WellFormedItems(items) && forall i :: 0 <= i < |items| ==> KeysAvoid(items[i], SingletonSuffix)
    ensures UnsingletonItems(items) == Ok(items)
    decreases SizeItems(items), 1, 0
  {
    if |items| > 0 {
      UnsingletonPlain(items[0]);
      UnsingletonItemsPlain(items[1..]);
      assert [items[0]] + items[1..] == items;
    }
  }

  lemma {:induction false} UnsingletonFieldsPlain(keys: seq<string>, fs: seq<Member>)
    requires DistinctKeys(fs) && WellFormedFields(fs)
    requires forall i :: 0 <= i < |fs| ==>
               (forall p :: !Strings.OccursAt(fs[i].key, SingletonSuffix, p)) && KeysAvoid(fs[i].value, SingletonSuffix)
    requires forall k :: k in keys ==> k in Keys(fs)
    ensures UnsingletonFields(keys, fs) == Ok(fs)
    decreases SizeFields(fs), 1, |keys|
  {
    if |keys| > 0 {
      assert keys[0] in Keys(fs);
      StepPlain(keys[0], fs);
      FieldsTurnOk(keys, fs, fs);
      UnsingletonFieldsPlain(keys[1..], fs);
    }
  }

  /** A turn on a key without the suffix, whose value is plain, changes nothing. */
  lemma StepPlain(k: string, fs: seq<Member>)
    requires DistinctKeys(fs) && WellFormedFields(fs) && k in Keys(fs)
    requires forall i :: 0 <= i < |fs| ==>
               (forall p :: !Strings.OccursAt(fs[i].key, SingletonSuffix, p)) && KeysAvoid(fs[i].value, SingletonSuffix)
    ensures Step(k, fs) == Ok(fs)
    decreases SizeFields(fs), 1, 0
  {
    var i := IndexOf(fs, k).value;
    var v := fs[i].value;
    assert !Strings.OccursAt(k, SingletonSuffix, |k| - |SingletonSuffix|);
    FieldSmaller(fs, i);
    UnsingletonPlain(v);
    assert fs[i := Member(k, v)] == fs;
  }

  // ---------------------------------------------------------------------------
  // The response envelope

  const DataPrefix: string := "{\"data\":"

  /** `unwrapSingletonArrays(json)`: read the text, reshape the tree, write it back;
      `parse` and `write` stand for Jackson's reader and writer. */
  function UnwrapSingletonArrays(json: string, parse: string -> Option<Json>, write: Json -> string): (r: Result<string>)
    ensures r.Ok? <==> parse(json).Some? && Unsingleton(parse(json).value).Ok?
    ensures r.Ok? ==> r.value == write(Unsingleton(parse(json).value).value)
  {
    match parse(json)
    case None => Err("invalid JSON")
    case Some(tree) =>
      var t :- Unsingleton(tree);
      Ok(write(t))
  }

  /** `formatGraphQLResponse`: jOOQ's JSON text of the one-row result, its outer
      brackets cut off, reshaped, and wrapped as `{"data":…}`. */
  function FormatGraphQLResponse(formatted: string, parse: string -> Option<Json>, write: Json -> string): (r: Result<string>)
    ensures r.Ok? ==> |formatted| >= 2
    ensures |formatted| >= 2 ==> (r.Ok? <==> UnwrapSingletonArrays(formatted[1..|formatted| - 1], parse, write).Ok?)
  {
    if |formatted| < 2 then Err("begin 1, end " + (if |formatted| == 0 then "-1" else "0"))
    else
      var body :- UnwrapSingletonArrays(formatted[1..|formatted| - 1], parse, write);
      Ok(DataPrefix + body + "}")
  }

  /** The text under `data` of an envelope. */
  function DataBody(response: string): string
    requires |response| >= |DataPrefix| + 1
  {
    response[|DataPrefix|..|response| - 1]
  }

  /** The envelope holds exactly the reshaped text of everything between the first
      and the last character of jOOQ's output. */
  lemma FormatEnvelope(formatted: string, parse: string -> Option<Json>, write: Json -> string)
    requires FormatGraphQLResponse(formatted, parse, write).Ok?
    ensures var r := FormatGraphQLResponse(formatted, parse, write).value;
            |r| >= |DataPrefix| + 1 && r[..|DataPrefix|] == DataPrefix && r[|r| - 1] == '}' &&
            Ok(DataBody(r)) == UnwrapSingletonArrays(formatted[1..|formatted| - 1], parse, write)
  {
    var body := UnwrapSingletonArrays(formatted[1..|formatted| - 1], parse, write).value;
    var r := DataPrefix + body + "}";
    assert r[|DataPrefix|..|r| - 1] == body;
    assert r[..|DataPrefix|] == DataPrefix;
  }
}
