/** The response reshaper of `JsonHelpers.kt`: every object key ending in `-object`
    that holds an array is replaced by the key without the suffix, holding the array's
    only element (or null); every other value is reshaped recursively. Overwriting a
    node in place with the rebuilt members is modelled as returning the rebuilt node. */
module JsonHelpers {
  import opened Wrappers
  import opened Json
  import Strings

  const ObjectSuffix: string := "-object"

  /** `unwrapSingletonArray`: the element of a one-element array, null for an empty
      one; a longer array fails. */
  function UnwrapSingletonArray(items: seq<Json>): (r: Result<Json>)
    ensures r.Ok? <==> |items| <= 1
    ensures r.Ok? ==> r.value == if |items| == 0 then JNull else items[0]
  {
    if |items| == 0 then Ok(JNull)
    else if |items| == 1 then Ok(items[0])
    else Err("Expected singleton or empty array")
  }

  /** `substringBeforeLast("-object")` */
  function RenameKey(k: string): string {
    Strings.SubstringBeforeLast(k, ObjectSuffix)
  }

  /** Whether a member is unwrapped instead of reshaped recursively. */
  predicate Unwraps(m: Member) {
    Strings.EndsWith(m.key, ObjectSuffix) && m.value.JArray?
  }

  /** `unwrapSingletonArraysRecursively`: objects are rebuilt member by member,
      arrays element by element; scalars are returned as they are. */
  function Unwrap(j: Json): (r: Result<Json>)
    decreases Size(j), 0
    ensures r.Ok? && j.JArray? ==> r.value.JArray? && |r.value.items| == |j.items|
    ensures r.Ok? && j.JObject? ==> r.value.JObject?
    ensures !j.JArray? && !j.JObject? ==> r == Ok(j)
  {
    match j
    case JObject(fields) =>
      var fs :- UnwrapMembers(fields, []);
      Ok(JObject(fs))
    case JArray(items) =>
      var xs :- UnwrapItems(items);
      Ok(JArray(xs))
    case _ => Ok(j)
  }

  /** `node.map { unwrapSingletonArraysRecursively(it) }` */
  function UnwrapItems(items: seq<Json>): (r: Result<seq<Json>>)
    decreases SizeItems(items), 1
    ensures r.Ok? ==> |r.value| == |items|
  {
    if |items| == 0 then Ok([])
    else
      var x :- Unwrap(items[0]);
      var rest :- UnwrapItems(items[1..]);
      Ok([x] + rest)
  }

  /** The new value of one member: the unwrapped array, or the reshaped value. */
  function MemberValue(m: Member): Result<Json>
    decreases Size(m.value), 1
  {
    if Unwraps(m) then UnwrapSingletonArray(m.value.items) else Unwrap(m.value)
  }

  /** `associateBy(rename, newValue)` folded into the members `acc` built so far: a
      renamed key already present takes the new value in its old place. */
  function UnwrapMembers(fields: seq<Member>, acc: seq<Member>): (r: Result<seq<Member>>)
    decreases SizeFields(fields), 2
  {
    if |fields| == 0 then Ok(acc)
    else
      var v :- MemberValue(fields[0]);
      UnwrapMembers(fields[1..], Set(acc, RenameKey(fields[0].key), v))
  }

  function RenamedKeys(fields: seq<Member>): (r: seq<string>)
    ensures |r| == |fields| && forall i :: 0 <= i < |fields| ==> r[i] == RenameKey(fields[i].key)
  {
    seq(|fields|, i requires 0 <= i < |fields| => RenameKey(fields[i].key))
  }

  // ---------------------------------------------------------------------------
  // Properties

  /** Arrays are reshaped element by element, keeping length and order; the first
      element that fails fails the array. */
  lemma {:induction false} UnwrapItemsElementwise(items: seq<Json>)
    ensures UnwrapItems(items).Ok? <==> forall i :: 0 <= i < |items| ==> Unwrap(items[i]).Ok?
    ensures UnwrapItems(items).Ok? ==>
              forall i :: 0 <= i < |items| ==> Ok(UnwrapItems(items).value[i]) == Unwrap(items[i])
  {
    if |items| > 0 {
      UnwrapItemsElementwise(items[1..]);
      assert forall i :: 1 <= i < |items| ==> items[i] == items[1..][i - 1];
    }
  }

  /** A member of the rebuilt object fails exactly when some member's new value fails. */
  lemma {:induction false} UnwrapMembersOk(fields: seq<Member>, acc: seq<Member>)
    ensures UnwrapMembers(fields, acc).Ok? <==> forall i :: 0 <= i < |fields| ==> MemberValue(fields[i]).Ok?
  {
    if |fields| > 0 && MemberValue(fields[0]).Ok? {
      var v := MemberValue(fields[0]).value;
      UnwrapMembersOk(fields[1..], Set(acc, RenameKey(fields[0].key), v));
      assert forall i :: 1 <= i < |fields| ==> fields[i] == fields[1..][i - 1];
    }
  }

  /** The keys of the rebuilt object are the renamed keys, each once, in the order of
      their first occurrence. */
  lemma {:induction false} UnwrapMembersKeys(fields: seq<Member>, acc: seq<Member>)
    requires Strings.Distinct(Keys(acc))
    requires UnwrapMembers(fields, acc).Ok?
    ensures Keys(UnwrapMembers(fields, acc).value) == Strings.Dedup(RenamedKeys(fields), Keys(acc))
  {
    if |fields| > 0 {
      var k := RenameKey(fields[0].key);
      var next := Set(acc, k, MemberValue(fields[0]).value);
      if k !in Keys(acc) {
        var t := Keys(acc) + [k];
        assert forall i :: 0 <= i < |Keys(acc)| ==> t[i] == Keys(acc)[i];
      }
      assert RenamedKeys(fields)[1..] == RenamedKeys(fields[1..]);
      UnwrapMembersKeys(fields[1..], next);
    }
  }

  /** When two keys rename to the same key, the later member's value wins. */
  lemma {:induction false} UnwrapMembersLastWins(fields: seq<Member>, acc: seq<Member>, i: nat)
    requires UnwrapMembers(fields, acc).Ok?
    requires i < |fields| && RenameKey(fields[i].key) !in RenamedKeys(fields[i + 1..])
    ensures MemberValue(fields[i]).Ok?
    ensures Get(UnwrapMembers(fields, acc).value, RenameKey(fields[i].key)) == Some(MemberValue(fields[i]).value)
  {
    UnwrapMembersStep(fields, acc);
    var next := Set(acc, RenameKey(fields[0].key), MemberValue(fields[0]).value);
    var tail := fields[1..];
    if i == 0 {
      UnwrapMembersKeeps(tail, next, RenameKey(fields[0].key));
    } else {
      assert tail[i - 1] == fields[i] && tail[i..] == fields[i + 1..];
      UnwrapMembersLastWins(tail, next, i - 1);
    }
  }

  /** One turn of the fold: the first member's new value is put under its new key. */
  lemma UnwrapMembersStep(fields: seq<Member>, acc: seq<Member>)
    requires |fields| > 0 && UnwrapMembers(fields, acc).Ok?
    ensures MemberValue(fields[0]).Ok?
    ensures UnwrapMembers(fields, acc) ==
              UnwrapMembers(fields[1..], Set(acc, RenameKey(fields[0].key), MemberValue(fields[0]).value))
  {
  }

  lemma {:induction false} UnwrapMembersKeeps(fields: seq<Member>, acc: seq<Member>, k: string)
    requires UnwrapMembers(fields, acc).Ok?
    requires k !in RenamedKeys(fields)
    ensures Get(UnwrapMembers(fields, acc).value, k) == Get(acc, k)
  {
    if |fields| > 0 {
      UnwrapMembersStep(fields, acc);
      assert RenamedKeys(fields)[0] == RenameKey(fields[0].key);
      assert RenamedKeys(fields[1..]) == RenamedKeys(fields)[1..];
      UnwrapMembersKeeps(fields[1..], Set(acc, RenameKey(fields[0].key), MemberValue(fields[0]).value), k);
    }
  }

  /** A `-object` key holding an array is renamed, and its array becomes null or its
      only element, which is not reshaped itself; a longer array fails. */
  lemma ObjectSuffixUnwraps(name: string, items: seq<Json>)
    ensures var m := Member(name + ObjectSuffix, JArray(items));
            RenameKey(m.key) == name &&
            (MemberValue(m).Ok? <==> |items| <= 1) &&
            (|items| == 0 ==> MemberValue(m) == Ok(JNull)) &&
            (|items| == 1 ==> MemberValue(m) == Ok(items[0]))
  {
    var k := name + ObjectSuffix;
    assert k[|k| - |ObjectSuffix|..] == ObjectSuffix;
    Strings.SubstringBeforeLastOfSuffixed(k, ObjectSuffix);
    assert k[..|k| - |ObjectSuffix|] == name;
  }

  /** A tree with no `-object` in any key, and distinct keys in every object, comes
      back unchanged. */
  lemma {:induction false} UnwrapPlain(j: Json)
    requires WellFormed(j) && KeysAvoid(j, ObjectSuffix)
    ensures Unwrap(j) == Ok(j)
    decreases Size(j), 0
  {
    match j
    case JObject(fields) =>
      UnwrapMembersPlain(fields, []);
      assert [] + fields == fields;
    case JArray(items) => UnwrapItemsPlain(items);
    case _ =>
  }

  lemma {:induction false} UnwrapItemsPlain(items: seq<Json>)
    requires WellFormedItems(items) && forall i :: 0 <= i < |items| ==> KeysAvoid(items[i], ObjectSuffix)
    ensures UnwrapItems(items) == Ok(items)
    decreases SizeItems(items), 1
  {
    if |items| > 0 {
      UnwrapPlain(items[0]);
      UnwrapItemsPlain(items[1..]);
      assert [items[0]] + items[1..] == items;
    }
  }

  lemma {:induction false} UnwrapMembersPlain(fields: seq<Member>, acc: seq<Member>)
    requires DistinctKeys(acc + fields) && WellFormedFields(fields)
    requires forall i :: 0 <= i < |fields| ==>
               (forall p :: !Strings.OccursAt(fields[i].key, ObjectSuffix, p)) && KeysAvoid(fields[i].value, ObjectSuffix)
    ensures UnwrapMembers(fields, acc) == Ok(acc + fields)
    decreases SizeFields(fields), 2
  {
    if |fields| == 0 {
      assert acc + fields == acc;
    } else {
      var m := fields[0];
      assert !Strings.OccursAt(m.key, ObjectSuffix, |m.key| - |ObjectSuffix|);
      assert !Unwraps(m);
      UnwrapPlain(m.value);
      Strings.SubstringBeforeLastWithout(m.key, ObjectSuffix);
      forall i | 0 <= i < |acc| ensures acc[i].key != m.key {
        assert (acc + fields)[i] == acc[i] && (acc + fields)[|acc|] == m;
      }
      assert m.key !in Keys(acc);
      assert Set(acc, m.key, m.value) == acc + [m];
      assert (acc + [m]) + fields[1..] == acc + fields;
      UnwrapMembersPlain(fields[1..], acc + [m]);
    }
  }
}
