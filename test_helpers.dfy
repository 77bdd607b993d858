/** The test suite's order-insensitive JSON comparison, `compareJsonNodes` of
    `TestHelpers.kt`: two arrays are equal when each element of the first can be
    matched, first come first served, to a not yet used element of the second; two
    objects when every member of the first has an equal member under the same key in
    the second; anything else by plain equality. */
module TestHelpers {
  import opened Wrappers
  import opened Json

  // ---------------------------------------------------------------------------
  // The comparison, as a function of the two trees

  /** What `compareJsonNodes(node1, node2)` answers. */
  function Compare(n1: Json, n2: Json): bool
    decreases Size(n1), 0, 0
  {
    if n1.JArray? && n2.JArray? then
      |n1.items| == |n2.items| && Matching(n1.items, n2.items, {}).Some?
    else if n1.JObject? && n2.JObject? then
      |n1.fields| == |n2.fields| && FieldsMatch(n1.fields, n2.fields)
    else
      n1 == n2
  }

  /** The inner loop: the first index from `j` on that is not in `visited` and holds
      an element equal to `x`. */
  function FirstMatch(x: Json, b: seq<Json>, visited: set<int>, j: nat): (r: Option<nat>)
    decreases Size(x), 1, if j <= |b| then |b| - j else 0
    ensures r.Some? ==> j <= r.value < |b| && r.value !in visited && Compare(x, b[r.value])
    ensures r.Some? ==> forall k :: j <= k < r.value && k !in visited ==> !Compare(x, b[k])
    ensures r.None? ==> forall k :: j <= k < |b| && k !in visited ==> !Compare(x, b[k])
  {
    if j >= |b| then None
    else if j !in visited && Compare(x, b[j]) then Some(j)
    else FirstMatch(x, b, visited, j + 1)
  }

  /** The outer loop: the index chosen for each element of `a` in turn, each one
      added to `visited` before the next element is matched; none when some element
      finds no match. */
  function Matching(a: seq<Json>, b: seq<Json>, visited: set<int>): Option<seq<nat>>
    decreases SizeItems(a), 2, 0
  {
    if |a| == 0 then Some([])
    else
      match FirstMatch(a[0], b, visited, 0)
      case None => None
      case Some(k) =>
        match Matching(a[1..], b, visited + {k})
        case None => None
        case Some(m) => Some([k] + m)
  }

  /** The member loop: every member of `f1` is present in `f2` with an equal value. */
  function FieldsMatch(f1: seq<Member>, f2: seq<Member>): bool
    decreases SizeFields(f1), 2, 0
  {
    if |f1| == 0 then true
    else
      (match Get(f2, f1[0].key)
       case None => false
       case Some(v) => Compare(f1[0].value, v))
      && FieldsMatch(f1[1..], f2)
  }

  // ---------------------------------------------------------------------------
  // The comparison as the test helper runs it

  /** `compareJsonNodes(node1, node2)` */
  method CompareJsonNodes(node1: Json, node2: Json) returns (equal: bool)
    decreases Size(node1), 1
    ensures equal == Compare(node1, node2)
  {
    if node1.JArray? && node2.JArray? {
      equal := CompareArrays(node1.items, node2.items);
    } else if node1.JObject? && node2.JObject? {
      equal := CompareObjects(node1.fields, node2.fields);
    } else {
      equal := node1 == node2;
    }
  }

  /** The array branch: a size check, then one scan of `b` per element of `a` that
      skips the indices already used and stops at the first equal element. */
  method CompareArrays(a: seq<Json>, b: seq<Json>) returns (equal: bool)
    decreases SizeItems(a) + 1, 0
    ensures equal == (|a| == |b| && Matching(a, b, {}).Some?)
  {
    if |a| != |b| {
      return false;
    }
    var visited: set<int> := {};
    for i := 0 to |a|
      invariant Matching(a, b, {}).Some? == Matching(a[i..], b, visited).Some?
    {
      assert a[i..][0] == a[i] && a[i..][1..] == a[i + 1..];
      ghost var before := visited;
      var found := false;
      for j := 0 to |b|
        invariant !found && visited == before
        invariant FirstMatch(a[i], b, before, 0) == FirstMatch(a[i], b, before, j)
      {
        if j in visited {
          continue;
        }
        ItemSmaller(a, i);
        var same := CompareJsonNodes(a[i], b[j]);
        if same {
          visited := visited + {j};
          found := true;
          break;
        }
      }
      if !found {
        return false;
      }
    }
    assert a[|a|..] == [];
    return true;
  }

  /** The object branch: a size check, then each member of `f1` in order. */
  method CompareObjects(f1: seq<Member>, f2: seq<Member>) returns (equal: bool)
    decreases SizeFields(f1) + 1, 0
    ensures equal == (|f1| == |f2| && FieldsMatch(f1, f2))
  {
    if |f1| != |f2| {
      return false;
    }
    for i := 0 to |f1|
      invariant FieldsMatch(f1, f2) == FieldsMatch(f1[i..], f2)
    {
      assert f1[i..][0] == f1[i] && f1[i..][1..] == f1[i + 1..];
      var key, value := f1[i].key, f1[i].value;
      var got := Get(f2, key);
      if got.None? {
        return false;
      }
      FieldSmaller(f1, i);
      var same := CompareJsonNodes(value, got.value);
      if !same {
        return false;
      }
    }
    assert f1[|f1|..] == [];
    return true;
  }

  // ---------------------------------------------------------------------------
  // Properties

  /** `m` pairs each element of `a` with an equal element of `b`, no index of `b`
      used twice and none of `visited` used at all. */
  predicate IsMatching(a: seq<Json>, b: seq<Json>, visited: set<int>, m: seq<nat>) {
    && |m| == |a|
    && (forall i :: 0 <= i < |m| ==> m[i] < |b| && m[i] !in visited && Compare(a[i], b[m[i]]))
    && (forall i, j :: 0 <= i < j < |m| ==> m[i] != m[j])
  }

  /** The indices the loops choose form a matching. */
  lemma {:induction false} MatchingSound(a: seq<Json>, b: seq<Json>, visited: set<int>)
    requires Matching(a, b, visited).Some?
    ensures IsMatching(a, b, visited, Matching(a, b, visited).value)
  {
    if |a| > 0 {
      var k := FirstMatch(a[0], b, visited, 0).value;
      MatchingSound(a[1..], b, visited + {k});
      var m := Matching(a, b, visited).value;
      assert m[1..] == Matching(a[1..], b, visited + {k}).value;
      forall i | 1 <= i < |m| ensures m[i] != k && Compare(a[i], b[m[i]]) {
        assert m[i] == m[1..][i - 1] && a[i] == a[1..][i - 1];
      }
    }
  }

  /** Arrays of different sizes are unequal; equal arrays are a one-to-one pairing of
      equal elements, every element of the second array used exactly once. */
  lemma ArraysEqual(a: seq<Json>, b: seq<Json>)
    ensures Compare(JArray(a), JArray(b)) ==> |a| == |b| && exists m :: IsMatching(a, b, {}, m)
  {
    if Compare(JArray(a), JArray(b)) {
      MatchingSound(a, b, {});
    }
  }

  /** Objects of different sizes are unequal; otherwise equal exactly when every key
      of the first is in the second, holding an equal value. */
  lemma {:induction false} ObjectsEqual(f1: seq<Member>, f2: seq<Member>)
    ensures Compare(JObject(f1), JObject(f2)) <==>
              |f1| == |f2| &&
              forall i :: 0 <= i < |f1| ==>
                Get(f2, f1[i].key).Some? && Compare(f1[i].value, Get(f2, f1[i].key).value)
  {
    FieldsMatchAll(f1, f2);
  }

  lemma {:induction false} FieldsMatchAll(f1: seq<Member>, f2: seq<Member>)
    ensures FieldsMatch(f1, f2) <==>
              forall i :: 0 <= i < |f1| ==>
                Get(f2, f1[i].key).Some? && Compare(f1[i].value, Get(f2, f1[i].key).value)
  {
    if |f1| > 0 {
      FieldsMatchAll(f1[1..], f2);
      assert forall i :: 1 <= i < |f1| ==> f1[i] == f1[1..][i - 1];
    }
  }

  /** Anything but two arrays or two objects is compared by plain equality. */
  lemma OtherwisePlainEquality(n1: Json, n2: Json)
    requires !(n1.JArray? && n2.JArray?) && !(n1.JObject? && n2.JObject?)
    ensures Compare(n1, n2) <==> n1 == n2
  {
  }

  // ---------------------------------------------------------------------------
  // Arrays of scalars: equal exactly when one is a permutation of the other

  predicate Scalar(j: Json) {
    !j.JArray? && !j.JObject?
  }

  /** The elements of `b` from index `j` on that are not in `visited`. */
  function Remaining(b: seq<Json>, visited: set<int>, j: nat): multiset<Json>
    decreases if j <= |b| then |b| - j else 0
  {
    if j >= |b| then multiset{}
    else (if j in visited then multiset{} else multiset{b[j]}) + Remaining(b, visited, j + 1)
  }

  lemma {:induction false} RemainingAll(b: seq<Json>, j: nat)
    requires j <= |b|
    ensures Remaining(b, {}, j) == multiset(b[j..])
    decreases |b| - j
  {
    if j < |b| {
      RemainingAll(b, j + 1);
      assert b[j..] == [b[j]] + b[j + 1..];
    } else {
      assert b[j..] == [];
    }
  }

  lemma {:induction false} RemainingSkips(b: seq<Json>, visited: set<int>, k: int, j: nat)
    requires k < j
    ensures Remaining(b, visited + {k}, j) == Remaining(b, visited, j)
    decreases if j <= |b| then |b| - j else 0
  {
    if j < |b| {
      RemainingSkips(b, visited, k, j + 1);
    }
  }

  lemma {:induction false} RemainingHas(b: seq<Json>, visited: set<int>, k: nat, j: nat)
    requires j <= k < |b| && k !in visited
    ensures b[k] in Remaining(b, visited, j)
    decreases |b| - j
  {
    if j < k {
      RemainingHas(b, visited, k, j + 1);
    }
  }

  /** Marking index `k` used takes its element out of what remains from `j` on. */
  predicate TakenOut(b: seq<Json>, visited: set<int>, k: nat, j: nat)
    requires k < |b|
  {
    Remaining(b, visited + {k}, j) == Remaining(b, visited, j) - multiset{b[k]}
  }

  /** Marking an index used takes its element out of what remains. */
  lemma {:induction false} RemainingUse(b: seq<Json>, visited: set<int>, k: nat, j: nat)
    requires j <= k < |b| && k !in visited
    ensures TakenOut(b, visited, k, j)
    decreases |b| - j
  {
    if j == k {
      RemainingUseHere(b, visited, k);
    } else {
      assert b[k] in Remaining(b, visited, j + 1) by {
        RemainingHas(b, visited, k, j + 1);
      }
      assert TakenOut(b, visited, k, j + 1) by {
        RemainingUse(b, visited, k, j + 1);
      }
      RemainingUseLater(b, visited, k, j);
    }
  }

  lemma RemainingUseHere(b: seq<Json>, visited: set<int>, k: nat)
    requires k < |b| && k !in visited
    ensures TakenOut(b, visited, k, k)
  {
    var rest := Remaining(b, visited, k + 1);
    RemainingSkips(b, visited, k, k + 1);
    assert k in visited + {k};
    assert Remaining(b, visited, k) == multiset{b[k]} + rest;
    assert Remaining(b, visited + {k}, k) == multiset{} + rest;
    MultisetTakeOut(b[k], rest);
  }

  lemma RemainingUseLater(b: seq<Json>, visited: set<int>, k: nat, j: nat)
    requires j < k < |b|
    requires b[k] in Remaining(b, visited, j + 1)
    requires TakenOut(b, visited, k, j + 1)
    ensures TakenOut(b, visited, k, j)
  {
    var rest := Remaining(b, visited, j + 1);
    var here := if j in visited then multiset{} else multiset{b[j]};
    assert (j in visited + {k}) == (j in visited);
    assert Remaining(b, visited, j) == here + rest;
    assert Remaining(b, visited + {k}, j) == here + (rest - multiset{b[k]});
    MultisetTakeOutLater(b[k], here, rest);
  }

  lemma MultisetTakeOut(x: Json, M: multiset<Json>)
    ensures (multiset{x} + M) - multiset{x} == multiset{} + M
  {
    forall y ensures ((multiset{x} + M) - multiset{x})[y] == (multiset{} + M)[y] {}
  }

  lemma MultisetTakeOutLater(x: Json, A: multiset<Json>, M: multiset<Json>)
    requires x in M
    ensures A + (M - multiset{x}) == (A + M) - multiset{x}
  {
    forall y ensures (A + (M - multiset{x}))[y] == ((A + M) - multiset{x})[y] {}
  }

  /** For a scalar, the scan finds an index exactly when an equal element remains. */
  lemma {:induction false} FirstMatchScalar(x: Json, b: seq<Json>, visited: set<int>, j: nat)
    requires Scalar(x)
    ensures FirstMatch(x, b, visited, j).Some? <==> x in Remaining(b, visited, j)
    ensures FirstMatch(x, b, visited, j).Some? ==> b[FirstMatch(x, b, visited, j).value] == x
    decreases if j <= |b| then |b| - j else 0
  {
    if j < |b| {
      FirstMatchScalar(x, b, visited, j + 1);
    }
  }

  /** For scalars, the greedy matching succeeds exactly when the elements of `a` are
      among the remaining elements of `b`, counted with multiplicity. */
  lemma {:induction false} MatchingScalars(a: seq<Json>, b: seq<Json>, visited: set<int>)
    requires forall i :: 0 <= i < |a| ==> Scalar(a[i])
    ensures Matching(a, b, visited).Some? <==> multiset(a) <= Remaining(b, visited, 0)
  {
    if |a| > 0 {
      var x := a[0];
      assert a == [x] + a[1..];
      assert multiset(a) == multiset{x} + multiset(a[1..]);
      FirstMatchScalar(x, b, visited, 0);
      var R := Remaining(b, visited, 0);
      match FirstMatch(x, b, visited, 0)
      case None =>
        assert x !in R && x in multiset(a);
      case Some(k) =>
        MatchingScalars(a[1..], b, visited + {k});
        RemainingUse(b, visited, k, 0);
        assert x in R;
        SubMultisetCons(x, multiset(a[1..]), R);
    }
  }

  lemma SubMultisetCons(x: Json, M: multiset<Json>, R: multiset<Json>)
    requires x in R
    ensures multiset{x} + M <= R <==> M <= R - multiset{x}
  {
    if multiset{x} + M <= R {
      forall y ensures M[y] <= (R - multiset{x})[y] {
        assert (multiset{x} + M)[y] <= R[y];
      }
    }
    if M <= R - multiset{x} {
      forall y ensures (multiset{x} + M)[y] <= R[y] {
        assert M[y] <= (R - multiset{x})[y];
      }
    }
  }

  lemma SubMultisetSameSize(A: multiset<Json>, B: multiset<Json>)
    requires A <= B && |A| == |B|
    ensures A == B
  {
    var D := B - A;
    assert B == A + D by {
      forall y ensures B[y] == (A + D)[y] {
        assert A[y] <= B[y];
      }
    }
    assert |D| == 0;
  }

  /** Two arrays of scalars compare equal exactly when one is a permutation of the
      other: the order of elements is ignored, their multiplicity is not. */
  lemma ScalarArraysEqual(a: seq<Json>, b: seq<Json>)
    requires forall i :: 0 <= i < |a| ==> Scalar(a[i])
    ensures Compare(JArray(a), JArray(b)) <==> multiset(a) == multiset(b)
  {
    MatchingScalars(a, b, {});
    RemainingAll(b, 0);
    assert b[0..] == b;
    if |a| == |b| && multiset(a) <= multiset(b) {
      SubMultisetSameSize(multiset(a), multiset(b));
    }
    if multiset(a) == multiset(b) {
      assert |a| == |multiset(a)| == |multiset(b)| == |b|;
    }
  }

  /** A reordered array of scalars compares equal to the original. */
  lemma ReorderedScalarsEqual()
    ensures Compare(JArray([JNum(1), JStr("a"), JNum(1)]), JArray([JStr("a"), JNum(1), JNum(1)]))
    ensures !Compare(JArray([JNum(1), JStr("a"), JNum(1)]), JArray([JStr("a"), JStr("a"), JNum(1)]))
  {
    var a := [JNum(1), JStr("a"), JNum(1)];
    ScalarArraysEqual(a, [JStr("a"), JNum(1), JNum(1)]);
    ScalarArraysEqual(a, [JStr("a"), JStr("a"), JNum(1)]);
    assert multiset(a)[JStr("a")] == 1;
  }
}
