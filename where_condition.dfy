/** The WHERE-clause builders of the compiler: the join predicate of a relationship,
    the predicate of a filter argument, and the keyset predicate of an `after`
    cursor. */
module WhereCondition {
  import opened Wrappers
  import opened Sql
  import opened GraphQL
  import Json
  import Config

  /** `getForRelationship`: the registered join predicate, or an error for every
      unregistered triple. The twelve clauses are those of the registry. */
  function GetForRelationship(name: string, left: TableRef, right: TableRef): (r: Result<Condition>)
    ensures r.Ok? <==> exists e :: e in Config.Registry && Config.SameKey(e, name, left.def.kind, right.def.kind)
    ensures forall s :: Config.Entry(name, left.def.kind, right.def.kind, s) in Config.Registry ==>
              r == Ok(Config.JoinCondition(s, Alias(left.alias), Alias(right.alias)))
  {
    match Config.GetConditionForRelationship(name, left, right)
    case None => Err("No relationship called " + name + " found")
    case Some(c) => Ok(c)
  }

  /** `extractValue`: the bound value a literal stands for. Lists are converted element
      by element; object literals and variable references are rejected. */
  function ExtractValue(v: Value): (r: Result<SqlValue>)
    ensures v.ArrayValue? && r.Ok? ==>
              r.value.ListV? && |r.value.items| == |v.values| &&
              forall i :: 0 <= i < |v.values| ==> ExtractValue(v.values[i]) == Ok(r.value.items[i])
    ensures v.ArrayValue? ==> (r.Ok? <==> forall i :: 0 <= i < |v.values| ==> ExtractValue(v.values[i]).Ok?)
    ensures v.ObjectValue? || v.VariableReference? ==> r.Err?
    decreases v, 1
  {
    match v
    case IntValue(i) => Ok(IntV(i))
    case FloatValue(t) => Ok(DecimalV(t))
    case BooleanValue(b) => Ok(BoolV(b))
    case StringValue(s) => Ok(TextV(s))
    case EnumValue(n) => Ok(TextV(n))
    case NullValue => Ok(NullV)
    case ArrayValue(vs) =>
      var items :- ExtractValues(vs);
      Ok(ListV(items))
    case ObjectValue(_) => Err("Unsupported argument type ObjectValue")
    case VariableReference(_) => Err("Unsupported argument type VariableReference")
  }

  /** `values.map { extractValue(it) }`: stops at the first element that fails. */
  function ExtractValues(vs: seq<Value>): (r: Result<seq<SqlValue>>)
    ensures r.Ok? <==> forall i :: 0 <= i < |vs| ==> ExtractValue(vs[i]).Ok?
    ensures r.Ok? ==> |r.value| == |vs| && forall i :: 0 <= i < |vs| ==> ExtractValue(vs[i]) == Ok(r.value[i])
    decreases vs, 0
  {
    if |vs| == 0 then Ok([])
    else
      var x :- ExtractValue(vs[0]);
      var xs :- ExtractValues(vs[1..]);
      assert forall i :: 1 <= i < |vs| ==> vs[i] == vs[1..][i - 1];
      Ok([x] + xs)
  }

  /** A GraphQL literal for a bound value: the inverse direction of `ExtractValue`. */
  function ToLiteral(x: SqlValue): Value {
    match x
    case IntV(i) => IntValue(i)
    case DecimalV(t) => FloatValue(t)
    case BoolV(b) => BooleanValue(b)
    case TextV(s) => StringValue(s)
    case NullV => NullValue
    case ListV(items) => ArrayValue(seq(|items|, i requires 0 <= i < |items| => ToLiteral(items[i])))
  }

  /** Every bound value is written by some literal: extracting the literal gives the
      value back. */
  lemma {:induction false} ExtractToLiteral(x: SqlValue)
    ensures ExtractValue(ToLiteral(x)) == Ok(x)
  {
    match x
    case ListV(items) =>
      var vs := seq(|items|, i requires 0 <= i < |items| => ToLiteral(items[i]));
      forall i | 0 <= i < |items| ensures ExtractValue(vs[i]) == Ok(items[i]) {
        ExtractToLiteral(items[i]);
      }
      assert ExtractValues(vs).value == items;
    case _ =>
  }

  /** What a filter argument asks of a column value `x`: membership for a list (a NULL
      in the list admits NULL), IS NULL for null, equality otherwise. */
  predicate Matches(x: SqlValue, v: SqlValue) {
    match v
    case ListV(items) => x in items
    case NullV => x == NullV
    case _ => x != NullV && x == v
  }

  /** `getForArgument`: the column must exist; a list gives `IN`, with `OR IS NULL`
      when the list holds a null; null gives `IS NULL`; anything else equality. */
  function GetForArgument(arg: Argument, table: TableRef): (r: Result<Condition>)
    ensures r.Ok? <==> arg.name in table.def.fields && ExtractValue(arg.value).Ok?
    ensures r.Ok? ==> forall env: Env, db: Db, lt: (SqlValue, SqlValue) -> bool ::
              Holds(r.value, env, db, lt) <==>
                Matches(ValueOf(Column(table, arg.name), env), ExtractValue(arg.value).value)
  {
    if arg.name !in table.def.fields then Err("No field called " + arg.name + " found for table")
    else
      var v :- ExtractValue(arg.value);
      var col := Column(table, arg.name);
      match v
      case ListV(items) => Ok(OrC(In(col, items), if NullV in items then IsNull(col) else NoCondition))
      case NullV => Ok(IsNull(col))
      case _ => Ok(Eq(col, Lit(v)))
  }

  /** One `(key, value)` pair of a decoded cursor. */
  datatype CursorEntry = CursorEntry(key: string, value: SqlValue)

  /** `json.fields().map { it.key to it.value.asText() }`: the members of the cursor
      object in their order, each value as text; a cursor that is not an object has
      no members. */
  function DecodeCursor(j: Json.Json): (r: seq<CursorEntry>)
    ensures j.JObject? ==> (|r| == |j.fields| &&
              forall i :: 0 <= i < |r| ==> r[i].key == j.fields[i].key && r[i].value == TextV(Json.AsText(j.fields[i].value)))
    ensures !j.JObject? ==> r == []
  {
    match j
    case JObject(fields) =>
      seq(|fields|, i requires 0 <= i < |fields| => CursorEntry(fields[i].key, TextV(Json.AsText(fields[i].value))))
    case _ => []
  }

  /** `orderByFields.find { it.name == name }` */
  function FindSortField(orderBy: seq<SortField>, name: string): (r: Option<SortField>)
    ensures r.Some? ==> r.value in orderBy && r.value.name == name
    ensures r.None? <==> forall f :: f in orderBy ==> f.name != name
  {
    if |orderBy| == 0 then None
    else if orderBy[0].name == name then Some(orderBy[0])
    else FindSortField(orderBy[1..], name)
  }

  predicate DistinctNames(orderBy: seq<SortField>) {
    forall i, j :: 0 <= i < j < |orderBy| ==> orderBy[i].name != orderBy[j].name
  }

  lemma {:induction false} FindDistinct(orderBy: seq<SortField>, i: nat)
    requires DistinctNames(orderBy) && i < |orderBy|
    ensures FindSortField(orderBy, orderBy[i].name) == Some(orderBy[i])
  {
    if i > 0 {
      FindDistinct(orderBy[1..], i - 1);
    }
  }

  /** The comparison that puts a row after the cursor value in one field: `<` for a
      descending field, `>` otherwise. */
  function Beyond(col: Operand, e: CursorEntry, desc: bool): Condition {
    if desc then Lt(col, Lit(e.value)) else Gt(col, Lit(e.value))
  }

  /** `getForAfterArgumentRec`: no condition for an empty cursor, the bare comparison
      for a last pair, and otherwise `cmp(f1, v1) OR (f1 = v1 AND rec(tail))`. A key
      that is not an order field, or not a column, fails. */
  function GetForAfterArgumentRec(after: seq<CursorEntry>, orderBy: seq<SortField>, table: TableRef): (r: Result<Condition>)
    ensures r.Ok? <==> forall i :: 0 <= i < |after| ==>
              FindSortField(orderBy, after[i].key).Some? && after[i].key in table.def.fields
  {
    if |after| == 0 then Ok(NoCondition)
    else
      var head := after[0];
      match FindSortField(orderBy, head.key)
      case None => Err("Collection contains no element matching the predicate")
      case Some(f) =>
        if head.key !in table.def.fields then Err("null cannot be cast to non-null type Field")
        else
          var col := Column(table, head.key);
          var cmp := Beyond(col, head, f.desc);
          if |after| == 1 then Ok(cmp)
          else
            assert forall i :: 1 <= i < |after| ==> after[i] == after[1..][i - 1];
            var rest :- GetForAfterArgumentRec(after[1..], orderBy, table);
            Ok(OrC(cmp, AndC(Eq(col, Lit(head.value)), rest)))
  }

  /** `getForAfterArgument`: the argument must be a string literal holding JSON;
      `parse` stands for Jackson's `readTree`. */
  function GetForAfterArgument(arg: Argument, orderBy: seq<SortField>, table: TableRef,
                               parse: string -> Option<Json.Json>): (r: Result<Condition>)
    ensures r.Ok? ==> arg.value.StringValue? && parse(arg.value.s).Some?
    ensures r.Ok? ==> r == GetForAfterArgumentRec(DecodeCursor(parse(arg.value.s).value), orderBy, table)
    ensures arg.value.StringValue? && parse(arg.value.s).Some? ==>
              r == GetForAfterArgumentRec(DecodeCursor(parse(arg.value.s).value), orderBy, table)
  {
    if !arg.value.StringValue? then Err("after argument is not a string")
    else match parse(arg.value.s)
      case None => Err("after argument is not JSON")
      case Some(j) => GetForAfterArgumentRec(DecodeCursor(j), orderBy, table)
  }

  // ---------------------------------------------------------------------------
  // The meaning of the keyset predicate

  /** The direction of the order field named `key`. */
  function IsDesc(orderBy: seq<SortField>, key: string): bool {
    match FindSortField(orderBy, key)
    case Some(f) => f.desc
    case None => false
  }

  /** Row `r` agrees with cursor entry `e` (both non-null). */
  predicate SameAt(r: Row, e: CursorEntry) {
    Get(r, e.key) != NullV && e.value != NullV && Get(r, e.key) == e.value
  }

  /** Row `r` lies strictly beyond cursor entry `e` in the field's direction. */
  predicate PastAt(r: Row, e: CursorEntry, desc: bool, lt: (SqlValue, SqlValue) -> bool) {
    var x := Get(r, e.key);
    x != NullV && e.value != NullV && (if desc then lt(x, e.value) else lt(e.value, x))
  }

  /** Lexicographic "strictly after": the row agrees with the cursor on some prefix of
      its pairs and lies beyond it on the next one. */
  predicate LexAfter(r: Row, after: seq<CursorEntry>, orderBy: seq<SortField>, lt: (SqlValue, SqlValue) -> bool) {
    exists k :: 0 <= k < |after| &&
      (forall i :: 0 <= i < k ==> SameAt(r, after[i])) &&
      PastAt(r, after[k], IsDesc(orderBy, after[k].key), lt)
  }

  lemma LexAfterCons(r: Row, after: seq<CursorEntry>, orderBy: seq<SortField>, lt: (SqlValue, SqlValue) -> bool)
    requires |after| > 0
    ensures LexAfter(r, after, orderBy, lt) <==>
              PastAt(r, after[0], IsDesc(orderBy, after[0].key), lt) ||
              (SameAt(r, after[0]) && LexAfter(r, after[1..], orderBy, lt))
  {
    var tail := after[1..];
    if LexAfter(r, after, orderBy, lt) && !PastAt(r, after[0], IsDesc(orderBy, after[0].key), lt) {
      var k :| 0 <= k < |after| && (forall i :: 0 <= i < k ==> SameAt(r, after[i])) &&
               PastAt(r, after[k], IsDesc(orderBy, after[k].key), lt);
      assert k > 0;
      assert SameAt(r, after[0]);
      assert tail[k - 1] == after[k];
      assert forall i :: 0 <= i < k - 1 ==> SameAt(r, tail[i]) by {
        forall i | 0 <= i < k - 1 ensures SameAt(r, tail[i]) {
          assert tail[i] == after[i + 1];
        }
      }
    }
    if SameAt(r, after[0]) && LexAfter(r, tail, orderBy, lt) {
      var k :| 0 <= k < |tail| && (forall i :: 0 <= i < k ==> SameAt(r, tail[i])) &&
               PastAt(r, tail[k], IsDesc(orderBy, tail[k].key), lt);
      assert after[k + 1] == tail[k];
      forall i | 0 <= i < k + 1 ensures SameAt(r, after[i]) {
        if i > 0 { assert after[i] == tail[i - 1]; }
      }
    }
  }

  /** The keyset predicate selects exactly the rows strictly after the cursor, for the
      row the outer table's alias is bound to; an empty cursor selects every row. */
  lemma {:induction false} AfterPredicateIsLexAfter(after: seq<CursorEntry>, orderBy: seq<SortField>, table: TableRef,
                                                   env: Env, db: Db, lt: (SqlValue, SqlValue) -> bool)
    requires GetForAfterArgumentRec(after, orderBy, table).Ok?
    requires Alias(table.alias) in env
    ensures Holds(GetForAfterArgumentRec(after, orderBy, table).value, env, db, lt) <==>
              |after| == 0 || LexAfter(env[Alias(table.alias)], after, orderBy, lt)
  {
    var r := env[Alias(table.alias)];
    if |after| == 0 {
    } else {
      var head := after[0];
      var col := Column(table, head.key);
      var f := FindSortField(orderBy, head.key).value;
      var cmp := Beyond(col, head, f.desc);
      assert ValueOf(col, env) == Get(r, head.key);
      assert Holds(cmp, env, db, lt) <==> PastAt(r, head, IsDesc(orderBy, head.key), lt);
      LexAfterCons(r, after, orderBy, lt);
      if |after| == 1 {
        assert !LexAfter(r, after[1..], orderBy, lt);
      } else {
        AfterPredicateIsLexAfter(after[1..], orderBy, table, env, db, lt);
        var rest := GetForAfterArgumentRec(after[1..], orderBy, table).value;
        var eq := Eq(col, Lit(head.value));
        assert Holds(eq, env, db, lt) <==> SameAt(r, head);
        AndCHolds(eq, rest, env, db, lt);
        assert cmp != NoCondition && AndC(eq, rest) != NoCondition;
        OrCHolds(cmp, AndC(eq, rest), env, db, lt);
      }
    }
  }

  /** The cursor of row `r0` over the order fields from position `m` on. */
  function CursorOf(r0: Row, orderBy: seq<SortField>, m: nat): (r: seq<CursorEntry>)
    requires m <= |orderBy|
    ensures |r| == |orderBy| - m
    ensures forall i :: 0 <= i < |r| ==> r[i] == CursorEntry(orderBy[m + i].name, Get(r0, orderBy[m + i].name))
  {
    seq(|orderBy| - m, i requires 0 <= i < |orderBy| - m => CursorEntry(orderBy[m + i].name, Get(r0, orderBy[m + i].name)))
  }

  predicate NonNullOn(r: Row, orderBy: seq<SortField>) {
    forall i :: 0 <= i < |orderBy| ==> Get(r, orderBy[i].name) != NullV
  }

  lemma {:induction false} LexAfterIsOrderedBefore(r0: Row, r: Row, orderBy: seq<SortField>, m: nat, lt: (SqlValue, SqlValue) -> bool)
    requires m <= |orderBy| && DistinctNames(orderBy) && StrictTotalOrder(lt)
    requires NonNullOn(r0, orderBy) && NonNullOn(r, orderBy)
    ensures LexAfter(r, CursorOf(r0, orderBy, m), orderBy, lt) <==> OrderedBefore(r0, r, orderBy[m..], lt)
    decreases |orderBy| - m
  {
    var c := CursorOf(r0, orderBy, m);
    if m == |orderBy| {
      assert |c| == 0;
    } else {
      LexAfterCons(r, c, orderBy, lt);
      FindDistinct(orderBy, m);
      LexAfterIsOrderedBefore(r0, r, orderBy, m + 1, lt);
      assert c[1..] == CursorOf(r0, orderBy, m + 1);
      assert orderBy[m..][1..] == orderBy[m + 1..];
      assert orderBy[m..][0] == orderBy[m];
    }
  }

  /** The keyset predicate built from the cursor of row `r0` selects exactly the rows
      that the ORDER BY puts strictly after `r0`: with a total order on the values and
      no nulls in the order fields, paging with `after` resumes right behind the last
      row of the previous page, for any mix of directions. */
  lemma AfterPredicateMatchesOrderBy(r0: Row, orderBy: seq<SortField>, table: TableRef,
                                     env: Env, db: Db, lt: (SqlValue, SqlValue) -> bool)
    requires |orderBy| > 0 && DistinctNames(orderBy) && StrictTotalOrder(lt)
    requires forall i :: 0 <= i < |orderBy| ==> orderBy[i].name in table.def.fields
    requires Alias(table.alias) in env
    requires NonNullOn(r0, orderBy) && NonNullOn(env[Alias(table.alias)], orderBy)
    ensures GetForAfterArgumentRec(CursorOf(r0, orderBy, 0), orderBy, table).Ok?
    ensures Holds(GetForAfterArgumentRec(CursorOf(r0, orderBy, 0), orderBy, table).value, env, db, lt) <==>
              OrderedBefore(r0, env[Alias(table.alias)], orderBy, lt)
  {
    var c := CursorOf(r0, orderBy, 0);
    forall i | 0 <= i < |c| ensures FindSortField(orderBy, c[i].key).Some? {
      FindDistinct(orderBy, i);
    }
    AfterPredicateIsLexAfter(c, orderBy, table, env, db, lt);
    LexAfterIsOrderedBefore(r0, env[Alias(table.alias)], orderBy, 0, lt);
    assert orderBy[0..] == orderBy;
  }
}
