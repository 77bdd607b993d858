/** The second pass of the compiler (`resolveInternalQueryTree`): a relation of the
    query tree becomes one SQL sub-query producing JSON. SQL is kept as an abstract
    syntax tree: a common table expression with its projections, predicates, order
    and limit, and the shape of the JSON built from it. Both generations of the
    compiler share this pass; `Generation` selects where they differ. */
module Resolver {
  import opened Wrappers
  import opened Sql
  import opened GraphQL
  import opened SchemaParsing
  import opened QueryTree
  import WhereCondition
  import Strings
  import Json

  /** `Current` is the compiler in `QueryTranspiler.kt`, `Legacy` the older one in
      `Logic.kt`. */
  datatype Generation = Current | Legacy

  datatype AttributeColumn = AttributeColumn(column: string, alias: string)

  /** What `hasNextPage` is computed from: the constant false without a limit, the
      constant true for a limit of zero, and otherwise whether the largest
      `count_after_cursor` exceeds the limit. */
  datatype HasNextPage = NoLimitFalse | ZeroLimitTrue | MaxCountExceeds(limit: int)

  datatype PageInfoField = PageInfoField(alias: string, hasNextPageKeys: seq<string>, hasNextPage: HasNextPage,
                                         endCursorKeys: seq<string>)

  /** `selectCount().from(table).where(filters).and(join)` */
  datatype CountQuery = CountQuery(table: TableRef, where: seq<Condition>, join: Condition)

  /** The JSON the outer select builds from the rows of the CTE. */
  datatype Shape =
    | ConnectionObject(edgesKey: string, nodeKey: string, cursorKeys: seq<string>,
                       totalCountKeys: seq<string>, totalCount: CountQuery, pageInfos: seq<PageInfoField>)
    | ListArray
    | SingleObject

  /** The CTE: its projections (attribute columns, nested sub-queries, the cursor over
      the named order fields if projected, the window count if projected), the table,
      the WHERE conjuncts, ORDER BY and LIMIT. */
  datatype Cte = Cte(
    attributes: seq<AttributeColumn>,
    subSelects: seq<JsonField>,
    cursor: Option<seq<string>>,
    countAfterCursor: bool,
    table: TableRef,
    where: seq<Condition>,
    join: Condition,
    after: Condition,
    orderBy: seq<SortField>,
    limit: Option<int>)

  /** One compiled relation: a JSON-valued field under the relation's response alias. */
  datatype JsonField = JsonField(cte: Cte, shape: Shape, alias: string)

  // ---------------------------------------------------------------------------
  // Tables and attribute columns

  /** `getTableWithAlias`: the catalog table named by the lower-cased type name, under
      the relation's SQL alias. */
  function TableWithAlias(catalog: Catalog, rel: Node): (r: Result<TableRef>)
    requires rel.Relation?
    ensures r.Ok? <==> Strings.Lowercase(rel.typeInfo.graphQLTypeName) in catalog
    ensures r.Ok? ==> r.value == TableRef(catalog[RelationName(rel.typeInfo)], rel.sqlAlias)
  {
    var name := RelationName(rel.typeInfo);
    if name in catalog then Ok(TableRef(catalog[name], rel.sqlAlias))
    else Err("Table " + name + " not found")
  }

  /** The attribute children, in order (the second half of `partition`). */
  function Attributes(children: seq<Node>): (r: seq<Node>)
    ensures forall n :: n in r <==> n in children && n.Attribute?
  {
    if |children| == 0 then []
    else if children[0].Attribute? then [children[0]] + Attributes(children[1..])
    else Attributes(children[1..])
  }

  /** The response aliases of the nodes, in order. */
  function AliasesOfNodes(nodes: seq<Node>): (r: seq<string>)
    ensures |r| == |nodes| && forall i :: 0 <= i < |nodes| ==> r[i] == nodes[i].alias
  {
    if |nodes| == 0 then [] else [nodes[0].alias] + AliasesOfNodes(nodes[1..])
  }

  /** The position of the first node with response alias `a`, or `|nodes|` when none
      has it. */
  function FirstIndexOfAlias(nodes: seq<Node>, a: string): (k: nat)
    ensures k <= |nodes|
    ensures k < |nodes| ==> nodes[k].alias == a
    ensures forall j :: 0 <= j < k ==> nodes[j].alias != a
  {
    if |nodes| == 0 then 0
    else if nodes[0].alias == a then 0
    else 1 + FirstIndexOfAlias(nodes[1..], a)
  }

  /** Each node of `r` is the first node of `nodes` with its alias, and `r` keeps the
      order of those first nodes. */
  predicate FirstOccurrences(nodes: seq<Node>, r: seq<Node>) {
    && (forall i :: 0 <= i < |r| ==>
          FirstIndexOfAlias(nodes, r[i].alias) < |nodes| && r[i] == nodes[FirstIndexOfAlias(nodes, r[i].alias)])
    && (forall i, j :: 0 <= i < j < |r| ==> FirstIndexOfAlias(nodes, r[i].alias) < FirstIndexOfAlias(nodes, r[j].alias))
  }

  /** `distinctBy { it.graphQLAlias }`, continuing after the aliases in `seen`: the
      first node of every alias not yet seen, in the order of those first nodes. */
  function DistinctByAlias(nodes: seq<Node>, seen: set<string>): (r: seq<Node>)
    ensures forall n :: n in r ==> n in nodes
    ensures forall a :: a in AliasesOfNodes(r) <==> a in AliasesOfNodes(nodes) && a !in seen
    ensures Strings.Distinct(AliasesOfNodes(r))
    ensures FirstOccurrences(nodes, r)
  {
    if |nodes| == 0 then []
    else if nodes[0].alias in seen then
      var rest := DistinctByAlias(nodes[1..], seen);
      FirstOccurrencesSkip(nodes, rest);
      rest
    else
      var rest := DistinctByAlias(nodes[1..], seen + {nodes[0].alias});
      Strings.DistinctCons(nodes[0].alias, AliasesOfNodes(rest));
      assert AliasesOfNodes([nodes[0]] + rest) == [nodes[0].alias] + AliasesOfNodes(rest) by {
        assert ([nodes[0]] + rest)[1..] == rest;
      }
      FirstOccurrencesKeep(nodes, rest);
      [nodes[0]] + rest
  }

  /** The aliases of `rest` differ from the first node's, so their first positions in
      `nodes` are one past those in `nodes[1..]`. */
  lemma FirstIndexShift(nodes: seq<Node>, rest: seq<Node>)
    requires |nodes| > 0 && nodes[0].alias !in AliasesOfNodes(rest)
    ensures forall i :: 0 <= i < |rest| ==>
              FirstIndexOfAlias(nodes, rest[i].alias) == 1 + FirstIndexOfAlias(nodes[1..], rest[i].alias)
  {
    forall i | 0 <= i < |rest|
      ensures FirstIndexOfAlias(nodes, rest[i].alias) == 1 + FirstIndexOfAlias(nodes[1..], rest[i].alias)
    {
      assert AliasesOfNodes(rest)[i] == rest[i].alias;
    }
  }

  lemma FirstOccurrencesSkip(nodes: seq<Node>, rest: seq<Node>)
    requires |nodes| > 0 && nodes[0].alias !in AliasesOfNodes(rest)
    requires FirstOccurrences(nodes[1..], rest)
    ensures FirstOccurrences(nodes, rest)
  {
    FirstIndexShift(nodes, rest);
  }

  lemma FirstOccurrencesKeep(nodes: seq<Node>, rest: seq<Node>)
    requires |nodes| > 0 && nodes[0].alias !in AliasesOfNodes(rest)
    requires FirstOccurrences(nodes[1..], rest)
    ensures FirstOccurrences(nodes, [nodes[0]] + rest)
  {
    FirstIndexShift(nodes, rest);
    KeepElements(nodes, rest);
    KeepOrder(nodes, rest, [nodes[0]] + rest);
  }

  /** The first node's alias comes first in `nodes`, ahead of every alias of `rest`. */
  lemma KeepOrder(nodes: seq<Node>, rest: seq<Node>, r: seq<Node>)
    requires |nodes| > 0 && r == [nodes[0]] + rest
    requires forall i :: 0 <= i < |rest| ==>
               FirstIndexOfAlias(nodes, rest[i].alias) == 1 + FirstIndexOfAlias(nodes[1..], rest[i].alias)
    requires forall i, j :: 0 <= i < j < |rest| ==>
               FirstIndexOfAlias(nodes[1..], rest[i].alias) < FirstIndexOfAlias(nodes[1..], rest[j].alias)
    ensures forall i, j :: 0 <= i < j < |r| ==> FirstIndexOfAlias(nodes, r[i].alias) < FirstIndexOfAlias(nodes, r[j].alias)
  {
    assert FirstIndexOfAlias(nodes, r[0].alias) == 0;
    forall i, j | 0 <= i < j < |r|
      ensures FirstIndexOfAlias(nodes, r[i].alias) < FirstIndexOfAlias(nodes, r[j].alias)
    {
      assert r[j] == rest[j - 1];
      if i > 0 {
        assert r[i] == rest[i - 1];
      }
    }
  }

  /** Each node of `rest` is still the first node with its alias in `nodes`. */
  lemma KeepElements(nodes: seq<Node>, rest: seq<Node>)
    requires |nodes| > 0
    requires forall i :: 0 <= i < |rest| ==>
               FirstIndexOfAlias(nodes, rest[i].alias) == 1 + FirstIndexOfAlias(nodes[1..], rest[i].alias)
    requires FirstOccurrences(nodes[1..], rest)
    ensures forall i :: 0 <= i < |rest| ==>
              FirstIndexOfAlias(nodes, rest[i].alias) < |nodes| && rest[i] == nodes[FirstIndexOfAlias(nodes, rest[i].alias)]
  {
    forall i | 0 <= i < |rest|
      ensures FirstIndexOfAlias(nodes, rest[i].alias) < |nodes| && rest[i] == nodes[FirstIndexOfAlias(nodes, rest[i].alias)]
    {
      var k := FirstIndexOfAlias(nodes[1..], rest[i].alias);
      assert nodes[1..][k] == nodes[k + 1];
    }
  }

  /** `outerTable.field(name.lowercase())?.as(alias) ?: error(…)` for each attribute. */
  function AttributeColumns(attrs: seq<Node>, table: TableRef): (r: Result<seq<AttributeColumn>>)
    ensures r.Ok? <==> forall i :: 0 <= i < |attrs| ==> Strings.Lowercase(attrs[i].fieldName) in table.def.fields
    ensures r.Ok? ==> (|r.value| == |attrs| &&
              forall i :: 0 <= i < |attrs| ==>
                r.value[i] == AttributeColumn(Strings.Lowercase(attrs[i].fieldName), attrs[i].alias))
  {
    if |attrs| == 0 then Ok([])
    else
      var column := Strings.Lowercase(attrs[0].fieldName);
      if column !in table.def.fields then Err("Field " + attrs[0].fieldName + " does not exist on table")
      else
        var rest :- AttributeColumns(attrs[1..], table);
        assert forall i :: 1 <= i < |attrs| ==> attrs[i] == attrs[1..][i - 1];
        Ok([AttributeColumn(column, attrs[0].alias)] + rest)
  }

  // ---------------------------------------------------------------------------
  // Arguments

  datatype Split = Split(matching: seq<Argument>, rest: seq<Argument>)

  /** `partition { it.name == name }` */
  function PartitionByName(args: seq<Argument>, name: string): (r: Split)
    ensures multiset(r.matching) + multiset(r.rest) == multiset(args)
    ensures forall a :: a in r.matching ==> a in args && a.name == name
    ensures forall a :: a in r.rest ==> a in args && a.name != name
  {
    if |args| == 0 then Split([], [])
    else
      var a, tail := args[0], args[1..];
      var t := PartitionByName(tail, name);
      assert args == [a] + tail;
      assert multiset(args) == multiset{a} + multiset(tail);
      assert forall x :: x in tail ==> x in args;
      if a.name == name then
        assert multiset([a] + t.matching) == multiset{a} + multiset(t.matching);
        Split([a] + t.matching, t.rest)
      else
        assert multiset([a] + t.rest) == multiset{a} + multiset(t.rest);
        Split(t.matching, [a] + t.rest)
  }

  datatype ArgumentGroups = ArgumentGroups(first: seq<Argument>, orderBy: seq<Argument>, after: seq<Argument>,
                                           filters: seq<Argument>)

  /** The three successive partitions: `first`, then `orderBy`, then `after`; what is
      left are the filters. */
  function PartitionArguments(args: seq<Argument>): (r: ArgumentGroups)
    ensures multiset(r.first) + multiset(r.orderBy) + multiset(r.after) + multiset(r.filters) == multiset(args)
    ensures forall a :: a in r.first ==> a.name == "first"
    ensures forall a :: a in r.orderBy ==> a.name == "orderBy"
    ensures forall a :: a in r.after ==> a.name == "after"
    ensures forall a :: a in r.filters ==> IsFilter(a)
  {
    var p1 := PartitionByName(args, "first");
    var p2 := PartitionByName(p1.rest, "orderBy");
    var p3 := PartitionByName(p2.rest, "after");
    ArgumentGroups(p1.matching, p2.matching, p3.matching, p3.rest)
  }

  predicate IsFilter(a: Argument) {
    a.name != "first" && a.name != "orderBy" && a.name != "after"
  }

  /** The filter arguments in their original order. */
  function Filters(args: seq<Argument>): seq<Argument> {
    if |args| == 0 then []
    else if IsFilter(args[0]) then [args[0]] + Filters(args[1..])
    else Filters(args[1..])
  }

  lemma PartitionCons(a: Argument, tail: seq<Argument>, name: string)
    ensures PartitionByName([a] + tail, name).rest ==
              if a.name == name then PartitionByName(tail, name).rest else [a] + PartitionByName(tail, name).rest
  {
    assert ([a] + tail)[1..] == tail;
  }

  /** The filters keep the order in which they were written. */
  lemma {:induction false} FiltersKeepOrder(args: seq<Argument>)
    ensures PartitionArguments(args).filters == Filters(args)
  {
    if |args| > 0 {
      var a, tail := args[0], args[1..];
      assert args == [a] + tail;
      FiltersKeepOrder(tail);
      var t1 := PartitionByName(tail, "first").rest;
      var t2 := PartitionByName(t1, "orderBy").rest;
      PartitionCons(a, tail, "first");
      if a.name != "first" {
        PartitionCons(a, t1, "orderBy");
        if a.name != "orderBy" {
          PartitionCons(a, t2, "after");
        }
      }
    }
  }

  /** `(first?.value as IntValue?)?.value`: no limit without a `first` argument; a
      `first` that is not an integer literal fails the cast. */
  function LimitValue(first: seq<Argument>): (r: Result<Option<int>>)
    ensures r.Ok? <==> |first| == 0 || first[0].value.IntValue?
    ensures r.Ok? && |first| > 0 ==> r.value == Some(first[0].value.i)
    ensures r.Ok? && |first| == 0 ==> r.value == None
  {
    if |first| == 0 then Ok(None)
    else if first[0].value.IntValue? then Ok(Some(first[0].value.i))
    else Err("cannot be cast to IntValue")
  }

  /** The `when (limit)` of the `hasNextPage` value. */
  function HasNextPageRule(limit: Option<int>): (r: HasNextPage)
    ensures limit.None? <==> r == NoLimitFalse
    ensures limit == Some(0) <==> r == ZeroLimitTrue
    ensures r.MaxCountExceeds? <==> limit.Some? && limit.value != 0
    ensures r.MaxCountExceeds? ==> limit == Some(r.limit)
  {
    match limit
    case None => NoLimitFalse
    case Some(n) => if n == 0 then ZeroLimitTrue else MaxCountExceeds(n)
  }

  // ---------------------------------------------------------------------------
  // Order

  /** One entry of the `orderBy` map: a column and the enum name given for it. */
  datatype Criterion = Criterion(column: string, direction: string)

  function Columns(cs: seq<Criterion>): (r: seq<string>)
    ensures |r| == |cs| && forall i :: 0 <= i < |cs| ==> r[i] == cs[i].column
  {
    seq(|cs|, i requires 0 <= i < |cs| => cs[i].column)
  }

  lemma ColumnsCons(cs: seq<Criterion>)
    requires |cs| > 0
    ensures Columns(cs) == [cs[0].column] + Columns(cs[1..])
  {
  }

  /** The direction given for `column`, as a map lookup. */
  function DirectionOf(cs: seq<Criterion>, column: string): Option<string> {
    if |cs| == 0 then None
    else if cs[0].column == column then Some(cs[0].direction)
    else DirectionOf(cs[1..], column)
  }

  /** `LinkedHashMap.put`: a new key goes last; an existing key keeps its place and
      takes the new value. */
  function Put(cs: seq<Criterion>, column: string, direction: string): (r: seq<Criterion>)
    ensures Columns(r) == if column in Columns(cs) then Columns(cs) else Columns(cs) + [column]
    ensures DirectionOf(r, column) == Some(direction)
    ensures forall c :: c != column ==> DirectionOf(r, c) == DirectionOf(cs, c)
  {
    if |cs| == 0 then [Criterion(column, direction)]
    else if cs[0].column == column then
      var r := [Criterion(column, direction)] + cs[1..];
      assert Columns(r) == Columns(cs);
      assert r[1..] == cs[1..];
      r
    else
      var rest := Put(cs[1..], column, direction);
      var r := [cs[0]] + rest;
      assert r[0] == cs[0] && r[1..] == rest;
      ColumnsCons(cs);
      ColumnsCons(r);
      r
  }

  /** The lower-cased names of the object fields, in order. */
  function LowerNames(fields: seq<ObjectField>): seq<string> {
    if |fields| == 0 then [] else [Strings.Lowercase(fields[0].name)] + LowerNames(fields[1..])
  }

  /** Whether every object field names a column of the table and carries an enum. */
  predicate CriteriaFieldsValid(fields: seq<ObjectField>, table: TableRef) {
    forall i :: 0 <= i < |fields| ==> Strings.Lowercase(fields[i].name) in table.def.fields && fields[i].value.EnumValue?
  }

  /** `objectFields.associate { field(name.lowercase())!! to (value as EnumValue).name }`,
      folding into the entries `acc` built so far. A name that is not a column of the
      table, or a value that is not an enum, fails. */
  function Associate(fields: seq<ObjectField>, table: TableRef, acc: seq<Criterion>): (r: Result<seq<Criterion>>)
    ensures r.Ok? <==> CriteriaFieldsValid(fields, table)
    ensures r.Ok? && Strings.Distinct(Columns(acc)) ==> Strings.Distinct(Columns(r.value))
    ensures r.Ok? ==> forall c :: c in Columns(r.value) <==> c in Columns(acc) || c in LowerNames(fields)
    ensures r.Ok? && Strings.Distinct(Columns(acc)) ==> Columns(r.value) == Strings.Dedup(LowerNames(fields), Columns(acc))
  {
    if |fields| == 0 then Ok(acc)
    else
      var column := Strings.Lowercase(fields[0].name);
      if column !in table.def.fields then Err("field not found")
      else if !fields[0].value.EnumValue? then Err("cannot be cast to EnumValue")
      else
        assert CriteriaFieldsValid(fields, table) <==> CriteriaFieldsValid(fields[1..], table) by {
          assert forall i :: 1 <= i < |fields| ==> fields[i] == fields[1..][i - 1];
        }
        var next := Put(acc, column, fields[0].value.name);
        PutDistinct(acc, column, fields[0].value.name);
        assert LowerNames(fields) == [column] + LowerNames(fields[1..]);
        Associate(fields[1..], table, next)
  }

  lemma PutDistinct(cs: seq<Criterion>, column: string, direction: string)
    ensures Strings.Distinct(Columns(cs)) ==> Strings.Distinct(Columns(Put(cs, column, direction)))
  {
    if Strings.Distinct(Columns(cs)) && column !in Columns(cs) {
      var t := Columns(cs) + [column];
      assert forall i :: 0 <= i < |Columns(cs)| ==> t[i] == Columns(cs)[i];
    }
  }

  /** The direction given for a column is the one of the last object field naming it. */
  lemma {:induction false} AssociateLastWins(fields: seq<ObjectField>, table: TableRef, acc: seq<Criterion>, i: nat)
    requires Associate(fields, table, acc).Ok?
    requires i < |fields| && Strings.Lowercase(fields[i].name) !in LowerNames(fields[i + 1..])
    ensures DirectionOf(Associate(fields, table, acc).value, Strings.Lowercase(fields[i].name)) ==
              Some(fields[i].value.name)
  {
    var column := Strings.Lowercase(fields[0].name);
    AssociateStep(fields, table, acc);
    var next := Put(acc, column, fields[0].value.name);
    var tail := fields[1..];
    var result := Associate(tail, table, next).value;
    assert Associate(fields, table, acc).value == result;
    if i == 0 {
      AssociateKeeps(tail, table, next, column);
      assert DirectionOf(next, column) == Some(fields[0].value.name);
    } else {
      assert tail[i - 1] == fields[i] && tail[i..] == fields[i + 1..];
      AssociateLastWins(tail, table, next, i - 1);
      assert DirectionOf(result, Strings.Lowercase(tail[i - 1].name)) == Some(tail[i - 1].value.name);
    }
  }

  /** One turn of the fold: the first field is valid and its entry is put. */
  lemma AssociateStep(fields: seq<ObjectField>, table: TableRef, acc: seq<Criterion>)
    requires |fields| > 0 && Associate(fields, table, acc).Ok?
    ensures fields[0].value.EnumValue?
    ensures Associate(fields, table, acc) ==
              Associate(fields[1..], table, Put(acc, Strings.Lowercase(fields[0].name), fields[0].value.name))
  {
  }

  lemma {:induction false} AssociateKeeps(fields: seq<ObjectField>, table: TableRef, acc: seq<Criterion>, c: string)
    requires Associate(fields, table, acc).Ok?
    requires c !in LowerNames(fields)
    ensures DirectionOf(Associate(fields, table, acc).value, c) == DirectionOf(acc, c)
  {
    if |fields| > 0 {
      AssociateStep(fields, table, acc);
      AssociateKeeps(fields[1..], table, Put(acc, Strings.Lowercase(fields[0].name), fields[0].value.name), c);
    }
  }

  /** `(orderBy?.value as ObjectValue?)?.objectFields?.associate {…}.orEmpty()` */
  function ProvidedOrderCriteria(orderBy: seq<Argument>, table: TableRef): (r: Result<seq<Criterion>>)
    ensures r.Ok? ==> Strings.Distinct(Columns(r.value))
    ensures |orderBy| == 0 ==> r == Ok([])
    ensures |orderBy| > 0 && !orderBy[0].value.ObjectValue? ==> r.Err?
    ensures |orderBy| > 0 && orderBy[0].value.ObjectValue? ==> r == Associate(orderBy[0].value.objectFields, table, [])
    ensures r.Ok? && |orderBy| > 0 ==> Columns(r.value) == Strings.Dedup(LowerNames(orderBy[0].value.objectFields), [])
  {
    if |orderBy| == 0 then Ok([])
    else if !orderBy[0].value.ObjectValue? then Err("cannot be cast to ObjectValue")
    else Associate(orderBy[0].value.objectFields, table, [])
  }

  /** The primary-key columns the order falls back on: the declared key, else every
      column of the table (`Current`) or none (`Legacy`). */
  function TieBreakers(gen: Generation, table: TableDef): seq<string> {
    match table.primaryKey
    case Some(pk) => pk
    case None => if gen == Current then table.fields else []
  }

  /** `providedOrderCriteria.keys + (primaryKeyFields - keys).toSet()`, each field
      descending exactly when its given direction is `DESC`. */
  function EffectiveOrder(gen: Generation, criteria: seq<Criterion>, table: TableDef): (r: seq<SortField>)
    requires Strings.Distinct(Columns(criteria))
    ensures WhereCondition.DistinctNames(r)
    ensures |r| >= |criteria| && forall i :: 0 <= i < |criteria| ==> r[i].name == criteria[i].column
    ensures forall f :: f in r ==> f.name in Columns(criteria) || f.name in TieBreakers(gen, table)
    ensures forall c :: c in TieBreakers(gen, table) ==> exists i :: 0 <= i < |r| && r[i].name == c
    ensures forall i :: 0 <= i < |r| ==> (r[i].desc <==> DirectionOf(criteria, r[i].name) == Some("DESC"))
    ensures forall i :: |criteria| <= i < |r| ==> !r[i].desc
    ensures forall i, j :: |criteria| <= i < j < |r| ==>
              Strings.IndexOf(TieBreakers(gen, table), r[i].name) < Strings.IndexOf(TieBreakers(gen, table), r[j].name)
  {
    var keys := Columns(criteria);
    var names := Strings.Dedup(Strings.Minus(TieBreakers(gen, table), keys), keys);
    var r := SortFields(criteria, names);
    forall i | |criteria| <= i < |r| ensures !r[i].desc {
      DirectionOfAbsent(criteria, names[i]);
    }
    TieBreakersInOrder(TieBreakers(gen, table), keys, names);
    forall i, j | |criteria| <= i < j < |r|
      ensures Strings.IndexOf(TieBreakers(gen, table), r[i].name) < Strings.IndexOf(TieBreakers(gen, table), r[j].name)
    {
      assert r[i].name == names[i] && r[j].name == names[j];
    }
    forall c | c in TieBreakers(gen, table) ensures exists i :: 0 <= i < |r| && r[i].name == c {
      assert c in names;
      var i :| 0 <= i < |names| && names[i] == c;
      assert r[i].name == c;
    }
    r
  }

  /** The named fields, each descending exactly when its given direction is `DESC`. */
  function SortFields(criteria: seq<Criterion>, names: seq<string>): (r: seq<SortField>)
    ensures |r| == |names|
    ensures forall i :: 0 <= i < |r| ==>
              r[i].name == names[i] && (r[i].desc <==> DirectionOf(criteria, names[i]) == Some("DESC"))
  {
    seq(|names|, i requires 0 <= i < |names| => SortField(names[i], DirectionOf(criteria, names[i]) == Some("DESC")))
  }

  /** The tie-breakers appended after the given keys keep the order of the key. */
  lemma TieBreakersInOrder(pk: seq<string>, keys: seq<string>, names: seq<string>)
    requires Strings.Distinct(keys) && names == Strings.Dedup(Strings.Minus(pk, keys), keys)
    ensures forall i, j :: |keys| <= i < j < |names| ==> Strings.IndexOf(pk, names[i]) < Strings.IndexOf(pk, names[j])
  {
    var m := Strings.Minus(pk, keys);
    Strings.DedupOrder(m, keys);
    assert forall k :: 0 <= k < |keys| ==> names[k] == keys[k];
    forall i, j | |keys| <= i < j < |names| ensures Strings.IndexOf(pk, names[i]) < Strings.IndexOf(pk, names[j]) {
      assert names[i] !in keys && names[j] !in keys;
      Strings.MinusKeepsOrder(pk, keys, names[i], names[j]);
    }
  }

  lemma {:induction false} DirectionOfAbsent(cs: seq<Criterion>, c: string)
    requires c !in Columns(cs)
    ensures DirectionOf(cs, c) == None
  {
    if |cs| > 0 {
      assert Columns(cs[1..]) == Columns(cs)[1..];
      DirectionOfAbsent(cs[1..], c);
    }
  }

  // ---------------------------------------------------------------------------
  // The relation's SQL

  /** The filter predicates, in order; the first that fails fails the whole. */
  function FilterConditions(filters: seq<Argument>, table: TableRef): (r: Result<seq<Condition>>)
    ensures r.Ok? <==> forall i :: 0 <= i < |filters| ==> WhereCondition.GetForArgument(filters[i], table).Ok?
    ensures r.Ok? ==> (|r.value| == |filters| &&
              forall i :: 0 <= i < |filters| ==> Ok(r.value[i]) == WhereCondition.GetForArgument(filters[i], table))
  {
    if |filters| == 0 then Ok([])
    else
      var c :- WhereCondition.GetForArgument(filters[0], table);
      var rest :- FilterConditions(filters[1..], table);
      assert forall i :: 1 <= i < |filters| ==> filters[i] == filters[1..][i - 1];
      Ok([c] + rest)
  }

  predicate AnyEndCursor(pageInfos: seq<PageInfo>) {
    exists i :: 0 <= i < |pageInfos| && |pageInfos[i].endCursorAliases| > 0
  }

  predicate AnyHasNextPage(pageInfos: seq<PageInfo>) {
    exists i :: 0 <= i < |pageInfos| && |pageInfos[i].hasNextPageAliases| > 0
  }

  /** Whether the cursor is projected: the older generation always projects it; the
      newer one only when a `cursor` or an `endCursor` is requested. */
  predicate CursorProjected(gen: Generation, info: Option<ConnectionInfo>) {
    gen == Legacy || (info.Some? && (|info.value.cursorAliases| > 0 || AnyEndCursor(info.value.pageInfos)))
  }

  /** Whether `count_after_cursor` is projected: always in the older generation; in
      the newer one only when `hasNextPage` is requested. */
  predicate CountProjected(gen: Generation, info: Option<ConnectionInfo>) {
    gen == Legacy || (info.Some? && AnyHasNextPage(info.value.pageInfos))
  }

  function PageInfoFields(pageInfos: seq<PageInfo>, h: HasNextPage): (r: seq<PageInfoField>)
    ensures |r| == |pageInfos|
    ensures forall i :: 0 <= i < |r| ==>
              r[i] == PageInfoField(pageInfos[i].alias, pageInfos[i].hasNextPageAliases, h, pageInfos[i].endCursorAliases)
  {
    seq(|pageInfos|, i requires 0 <= i < |pageInfos| =>
      PageInfoField(pageInfos[i].alias, pageInfos[i].hasNextPageAliases, h, pageInfos[i].endCursorAliases))
  }

  /** The `when` of the outer select: a connection object (whose keys are the aliases
      in the newer generation and the literal `edges` and `node` in the older one), a
      list, or a single object. */
  function ShapeOf(gen: Generation, rel: Node, cte: Cte): Shape
    requires rel.Relation?
  {
    match rel.connectionInfo
    case Some(info) =>
      ConnectionObject(
        if gen == Current then info.edgesAlias else "edges",
        if gen == Current then info.nodeAlias else "node",
        info.cursorAliases, info.totalCountAliases,
        CountQuery(cte.table, cte.where, cte.join),
        PageInfoFields(info.pageInfos, HasNextPageRule(cte.limit)))
    case None => if rel.typeInfo.isList then ListArray else SingleObject
  }

  /** Every column the outer select reads is projected by the CTE: the cursor where a
      cursor or end cursor is emitted, the window count where `hasNextPage` compares
      it, in this relation and in every nested one. */
  predicate ReadsOnlyProjected(q: JsonField)
    decreases q
  {
    && (q.shape.ConnectionObject? ==>
          && ((|q.shape.cursorKeys| > 0 ||
               exists i :: 0 <= i < |q.shape.pageInfos| && |q.shape.pageInfos[i].endCursorKeys| > 0)
              ==> q.cte.cursor.Some?)
          && ((exists i :: 0 <= i < |q.shape.pageInfos| &&
                 |q.shape.pageInfos[i].hasNextPageKeys| > 0 && q.shape.pageInfos[i].hasNextPage.MaxCountExceeds?)
              ==> q.cte.countAfterCursor))
    && forall i :: 0 <= i < |q.cte.subSelects| ==> ReadsOnlyProjected(q.cte.subSelects[i])
  }

  /** What the arguments of a relation compile to. */
  datatype Clauses = Clauses(where: seq<Condition>, after: Condition, orderBy: seq<SortField>, limit: Option<int>)

  /** The argument half of `resolveInternalQueryTree`: the limit, the order, the
      keyset predicate of `after` and the filter predicates, failing in that order. */
  function ArgumentClauses(gen: Generation, parse: string -> Option<Json.Json>, args: seq<Argument>, outer: TableRef): (r: Result<Clauses>)
    ensures r.Ok? ==> WhereCondition.DistinctNames(r.value.orderBy)
    ensures r.Ok? ==> FilterConditions(Filters(args), outer) == Ok(r.value.where)
    ensures r.Ok? ==> LimitValue(PartitionArguments(args).first) == Ok(r.value.limit)
    ensures r.Ok? && |PartitionArguments(args).after| == 0 ==> r.value.after == NoCondition
    ensures r.Ok? ==> var criteria := ProvidedOrderCriteria(PartitionArguments(args).orderBy, outer);
              criteria.Ok? && r.value.orderBy == EffectiveOrder(gen, criteria.value, outer.def)
    ensures r.Ok? && |PartitionArguments(args).after| > 0 ==>
              WhereCondition.GetForAfterArgument(PartitionArguments(args).after[0], r.value.orderBy, outer, parse) == Ok(r.value.after)
    ensures r.Err? <==>
              || LimitValue(PartitionArguments(args).first).Err?
              || ProvidedOrderCriteria(PartitionArguments(args).orderBy, outer).Err?
              || (|PartitionArguments(args).after| > 0 &&
                  WhereCondition.GetForAfterArgument(PartitionArguments(args).after[0],
                    EffectiveOrder(gen, ProvidedOrderCriteria(PartitionArguments(args).orderBy, outer).value, outer.def),
                    outer, parse).Err?)
              || FilterConditions(Filters(args), outer).Err?
  {
    FiltersKeepOrder(args);
    var groups := PartitionArguments(args);
    var limit :- LimitValue(groups.first);
    var criteria :- ProvidedOrderCriteria(groups.orderBy, outer);
    var orderBy := EffectiveOrder(gen, criteria, outer.def);
    var after :- if |groups.after| == 0 then Ok(NoCondition)
                 else WhereCondition.GetForAfterArgument(groups.after[0], orderBy, outer, parse);
    var filters :- FilterConditions(groups.filters, outer);
    Ok(Clauses(filters, after, orderBy, limit))
  }

  /** The CTE and the outer select of a relation, from its compiled parts. */
  function Assemble(gen: Generation, rel: Node, columns: seq<AttributeColumn>, subs: seq<JsonField>, outer: TableRef,
                    c: Clauses, join: Condition): (q: JsonField)
    requires rel.Relation?
    ensures q.cte.cursor.Some? <==> CursorProjected(gen, rel.connectionInfo)
    ensures q.cte.countAfterCursor <==> CountProjected(gen, rel.connectionInfo)
    ensures (forall i :: 0 <= i < |subs| ==> ReadsOnlyProjected(subs[i])) ==> ReadsOnlyProjected(q)
    ensures rel.connectionInfo.Some? ==> ConnectionKeys(gen, rel.connectionInfo.value, c.limit, q.shape)
    ensures q.cte.cursor.Some? ==> q.cte.cursor.value == OrderNames(c.orderBy)
    ensures q.alias == rel.alias && q.cte.table == outer && q.cte.join == join
    ensures q.cte.attributes == columns && q.cte.subSelects == subs
    ensures q.cte.where == c.where && q.cte.after == c.after && q.cte.orderBy == c.orderBy && q.cte.limit == c.limit
  {
    var cursor := if CursorProjected(gen, rel.connectionInfo) then Some(OrderNames(c.orderBy)) else None;
    var cte := Cte(columns, subs, cursor, CountProjected(gen, rel.connectionInfo), outer, c.where, join, c.after, c.orderBy, c.limit);
    var q := JsonField(cte, ShapeOf(gen, rel, cte), rel.alias);
    ShapeReadsProjected(gen, rel, cte);
    q
  }

  /** The cursor and the window count a connection object reads are projected by its
      CTE whenever the projection rules say so. */
  lemma ShapeReadsProjected(gen: Generation, rel: Node, cte: Cte)
    requires rel.Relation?
    requires cte.cursor.Some? <==> CursorProjected(gen, rel.connectionInfo)
    requires cte.countAfterCursor <==> CountProjected(gen, rel.connectionInfo)
    ensures var shape := ShapeOf(gen, rel, cte);
            shape.ConnectionObject? ==>
              && ((|shape.cursorKeys| > 0 ||
                   exists i :: 0 <= i < |shape.pageInfos| && |shape.pageInfos[i].endCursorKeys| > 0)
                  ==> cte.cursor.Some?)
              && ((exists i :: 0 <= i < |shape.pageInfos| &&
                     |shape.pageInfos[i].hasNextPageKeys| > 0 && shape.pageInfos[i].hasNextPage.MaxCountExceeds?)
                  ==> cte.countAfterCursor)
  {
    if rel.connectionInfo.Some? {
      var info := rel.connectionInfo.value;
      var ps := ShapeOf(gen, rel, cte).pageInfos;
      if exists i :: 0 <= i < |ps| && |ps[i].endCursorKeys| > 0 {
        var i :| 0 <= i < |ps| && |ps[i].endCursorKeys| > 0;
        assert |info.pageInfos[i].endCursorAliases| > 0;
      }
      if exists i :: 0 <= i < |ps| && |ps[i].hasNextPageKeys| > 0 && ps[i].hasNextPage.MaxCountExceeds? {
        var i :| 0 <= i < |ps| && |ps[i].hasNextPageKeys| > 0 && ps[i].hasNextPage.MaxCountExceeds?;
        assert |info.pageInfos[i].hasNextPageAliases| > 0;
      }
    }
  }

  /** The keys of a connection object: the edges and node keys (the response aliases in
      the newer generation, the literal `edges` and `node` in the older one), the
      requested cursor, totalCount and pageInfo aliases, and for every page info the
      `hasNextPage` rule of the limit. */
  predicate ConnectionKeys(gen: Generation, info: ConnectionInfo, limit: Option<int>, shape: Shape) {
    && shape.ConnectionObject?
    && shape.edgesKey == (if gen == Current then info.edgesAlias else "edges")
    && shape.nodeKey == (if gen == Current then info.nodeAlias else "node")
    && shape.cursorKeys == info.cursorAliases
    && shape.totalCountKeys == info.totalCountAliases
    && |shape.pageInfos| == |info.pageInfos|
    && forall i :: 0 <= i < |info.pageInfos| ==>
         shape.pageInfos[i] == PageInfoField(info.pageInfos[i].alias, info.pageInfos[i].hasNextPageAliases,
                                             HasNextPageRule(limit), info.pageInfos[i].endCursorAliases)
  }

  /** `resolveInternalQueryTree(relation, joinCondition)`. `parse` stands for Jackson's
      JSON reader, used on the `after` cursor. */
  function Resolve(gen: Generation, catalog: Catalog, parse: string -> Option<Json.Json>, rel: Node, join: Condition): (r: Result<JsonField>)
    requires rel.Relation?
    decreases rel, 1
    ensures r.Ok? ==> r.value.alias == rel.alias && r.value.cte.join == join
    ensures r.Ok? ==> (r.value.shape.ConnectionObject? <==> rel.connectionInfo.Some?)
    ensures r.Ok? ==> (r.value.shape.ListArray? <==> rel.connectionInfo.None? && rel.typeInfo.isList)
    ensures r.Ok? ==> (r.value.cte.cursor.Some? <==> CursorProjected(gen, rel.connectionInfo))
    ensures r.Ok? ==> (r.value.cte.countAfterCursor <==> CountProjected(gen, rel.connectionInfo))
    ensures r.Ok? ==> WhereCondition.DistinctNames(r.value.cte.orderBy)
    ensures r.Ok? ==> Strings.Distinct(AttributeAliases(r.value.cte.attributes))
    ensures r.Ok? ==> |r.value.cte.subSelects| == |Relations(rel.children)|
    ensures r.Ok? ==> ReadsOnlyProjected(r.value)
    ensures r.Ok? && r.value.shape.ConnectionObject? ==>
              r.value.shape.totalCount == CountQuery(r.value.cte.table, r.value.cte.where, r.value.cte.join)
    ensures r.Ok? ==> FilterConditions(Filters(rel.arguments), r.value.cte.table) == Ok(r.value.cte.where)
    ensures r.Ok? ==> LimitValue(PartitionArguments(rel.arguments).first) == Ok(r.value.cte.limit)
    ensures r.Ok? && rel.connectionInfo.Some? ==> ConnectionKeys(gen, rel.connectionInfo.value, r.value.cte.limit, r.value.shape)
    ensures r.Ok? && r.value.cte.cursor.Some? ==> r.value.cte.cursor.value == OrderNames(r.value.cte.orderBy)
  {
    var outer :- TableWithAlias(catalog, rel);
    var attrs := DistinctByAlias(Attributes(rel.children), {});
    var columns :- AttributeColumns(attrs, outer);
    assert AliasesOfNodes(attrs) == AttributeAliases(columns);
    var subs :- ResolveSubRelations(gen, catalog, parse, rel.children, outer);
    var clauses :- ArgumentClauses(gen, parse, rel.arguments, outer);
    Ok(Assemble(gen, rel, columns, subs, outer, clauses, join))
  }

  /** What each part of the compiled CTE is made of: the relation's table, its distinct
      attributes, one sub-select per relation child in order, and the clauses of its
      arguments. */
  lemma ResolvedParts(gen: Generation, catalog: Catalog, parse: string -> Option<Json.Json>, rel: Node, join: Condition)
    requires rel.Relation? && Resolve(gen, catalog, parse, rel, join).Ok?
    ensures var q := Resolve(gen, catalog, parse, rel, join).value;
            && TableWithAlias(catalog, rel) == Ok(q.cte.table)
            && AttributeColumns(DistinctByAlias(Attributes(rel.children), {}), q.cte.table) == Ok(q.cte.attributes)
            && ResolveSubRelations(gen, catalog, parse, rel.children, q.cte.table) == Ok(q.cte.subSelects)
            && ArgumentClauses(gen, parse, rel.arguments, q.cte.table) ==
                 Ok(Clauses(q.cte.where, q.cte.after, q.cte.orderBy, q.cte.limit))
  {
    var outer := TableWithAlias(catalog, rel);
    assert outer.Ok?;
    var columns := AttributeColumns(DistinctByAlias(Attributes(rel.children), {}), outer.value);
    assert columns.Ok?;
    var subs := ResolveSubRelations(gen, catalog, parse, rel.children, outer.value);
    assert subs.Ok?;
    var c := ArgumentClauses(gen, parse, rel.arguments, outer.value);
    assert c.Ok?;
    assert Resolve(gen, catalog, parse, rel, join) == Ok(Assemble(gen, rel, columns.value, subs.value, outer.value, c.value, join));
  }

  /** The sub-select at position `i` is the relation child at position `i`, resolved
      under the join `getForRelationship` gives between the CTE's table and its own. */
  lemma ResolvedSubSelects(gen: Generation, catalog: Catalog, parse: string -> Option<Json.Json>, rel: Node, join: Condition)
    requires rel.Relation? && Resolve(gen, catalog, parse, rel, join).Ok?
    ensures var q := Resolve(gen, catalog, parse, rel, join).value;
            forall i :: 0 <= i < |q.cte.subSelects| ==>
              ResolveChild(gen, catalog, parse, Relations(rel.children)[i], q.cte.table) == Ok(q.cte.subSelects[i])
  {
    ResolvedParts(gen, catalog, parse, rel, join);
  }

  /** The order of the CTE is the requested order completed by the tie-breakers, and
      the keyset predicate is the one `after` gives for that very order. */
  lemma ResolvedOrder(gen: Generation, catalog: Catalog, parse: string -> Option<Json.Json>, rel: Node, join: Condition)
    requires rel.Relation? && Resolve(gen, catalog, parse, rel, join).Ok?
    ensures var q := Resolve(gen, catalog, parse, rel, join).value;
            var groups := PartitionArguments(rel.arguments);
            && ProvidedOrderCriteria(groups.orderBy, q.cte.table).Ok?
            && q.cte.orderBy == EffectiveOrder(gen, ProvidedOrderCriteria(groups.orderBy, q.cte.table).value, q.cte.table.def)
            && (|groups.after| == 0 ==> q.cte.after == NoCondition)
            && (|groups.after| > 0 ==>
                  WhereCondition.GetForAfterArgument(groups.after[0], q.cte.orderBy, q.cte.table, parse) == Ok(q.cte.after))
  {
    ResolvedParts(gen, catalog, parse, rel, join);
  }

  function AttributeAliases(cols: seq<AttributeColumn>): seq<string> {
    seq(|cols|, i requires 0 <= i < |cols| => cols[i].alias)
  }

  function OrderNames(orderBy: seq<SortField>): seq<string> {
    seq(|orderBy|, i requires 0 <= i < |orderBy| => orderBy[i].name)
  }

  /** The relation children, in order (the first half of `partition`). */
  function Relations(children: seq<Node>): (r: seq<Node>)
    ensures forall n :: n in r <==> n in children && n.Relation?
    ensures forall i :: 0 <= i < |r| ==> r[i] in children && r[i].Relation?
  {
    if |children| == 0 then []
    else if children[0].Relation? then [children[0]] + Relations(children[1..])
    else Relations(children[1..])
  }

  /** `relations.map { resolveInternalQueryTree(it, getForRelationship(it.name, outer, inner)) }`:
      the sub-select at position `i` is the relation child at position `i` resolved under
      its join to the outer table, and the first child that fails fails the whole. */
  function ResolveSubRelations(gen: Generation, catalog: Catalog, parse: string -> Option<Json.Json>,
                               children: seq<Node>, outer: TableRef): (r: Result<seq<JsonField>>)
    decreases children, 0
    ensures r.Ok? ==> |r.value| == |Relations(children)|
    ensures r.Ok? ==> forall i :: 0 <= i < |r.value| ==> ReadsOnlyProjected(r.value[i])
    ensures r.Ok? ==> forall i :: 0 <= i < |r.value| ==>
              ResolveChild(gen, catalog, parse, Relations(children)[i], outer) == Ok(r.value[i])
    ensures r.Err? ==>
              exists k :: 0 <= k < |Relations(children)| && ResolveChild(gen, catalog, parse, Relations(children)[k], outer) == Err(r.message)
  {
    var rels := Relations(children);
    var results := seq(|rels|, i requires 0 <= i < |rels| => ResolveChild(gen, catalog, parse, rels[i], outer));
    var r := AllOk(results);
    assert r.Ok? ==> forall i :: 0 <= i < |r.value| ==> results[i] == Ok(r.value[i]);
    r
  }

  /** One element of `relations.map {…}`: the relation under the join that
      `getForRelationship` gives between the outer table and its own table. */
  function ResolveChild(gen: Generation, catalog: Catalog, parse: string -> Option<Json.Json>, sub: Node, outer: TableRef): (r: Result<JsonField>)
    requires sub.Relation?
    decreases sub, 2
    ensures r.Ok? ==> ReadsOnlyProjected(r.value)
  {
    var inner :- TableWithAlias(catalog, sub);
    var join :- WhereCondition.GetForRelationship(sub.fieldName, outer, inner);
    Resolve(gen, catalog, parse, sub, join)
  }

  /** The values of a sequence of results when all of them succeed, and otherwise the
      first failure: what a `map` whose step may throw returns or throws. */
  function AllOk(rs: seq<Result<JsonField>>): (r: Result<seq<JsonField>>)
    ensures r.Ok? <==> forall i :: 0 <= i < |rs| ==> rs[i].Ok?
    ensures r.Ok? ==> |r.value| == |rs| && forall i :: 0 <= i < |rs| ==> rs[i] == Ok(r.value[i])
    ensures r.Err? ==> exists k :: 0 <= k < |rs| && rs[k].Err? && r.message == rs[k].message &&
                                   forall j :: 0 <= j < k ==> rs[j].Ok?
  {
    if |rs| == 0 then Ok([])
    else if rs[0].Err? then Err(rs[0].message)
    else
      var rest := AllOk(rs[1..]);
      assert forall i :: 1 <= i < |rs| ==> rs[i] == rs[1..][i - 1];
      if rest.Err? then
        var k :| 0 <= k < |rs[1..]| && rs[1..][k].Err? && rest.message == rs[1..][k].message &&
                 forall j :: 0 <= j < k ==> rs[1..][j].Ok?;
        assert rs[k + 1] == rs[1..][k];
        Err(rest.message)
      else
        Ok([rs[0].value] + rest.value)
  }

  // ---------------------------------------------------------------------------
  // Properties of the compiled SQL

  /** The filter part of the compiled WHERE: one conjunct per filter argument, in the
      order written, each holding exactly when the argument matches the row's column. */
  lemma ResolvedFiltersMeaning(gen: Generation, catalog: Catalog, parse: string -> Option<Json.Json>, rel: Node,
                               join: Condition, env: Env, db: Db, lt: (SqlValue, SqlValue) -> bool)
    requires rel.Relation? && Resolve(gen, catalog, parse, rel, join).Ok?
    ensures var q := Resolve(gen, catalog, parse, rel, join).value;
            var fs := Filters(rel.arguments);
            |q.cte.where| == |fs| &&
            forall i :: 0 <= i < |fs| ==>
              fs[i].name in q.cte.table.def.fields && WhereCondition.ExtractValue(fs[i].value).Ok? &&
              (Holds(q.cte.where[i], env, db, lt) <==>
                 WhereCondition.Matches(ValueOf(Column(q.cte.table, fs[i].name), env), WhereCondition.ExtractValue(fs[i].value).value))
  {
    var q := Resolve(gen, catalog, parse, rel, join).value;
    var fs := Filters(rel.arguments);
    forall i | 0 <= i < |fs|
      ensures fs[i].name in q.cte.table.def.fields && WhereCondition.ExtractValue(fs[i].value).Ok? &&
              (Holds(q.cte.where[i], env, db, lt) <==>
                 WhereCondition.Matches(ValueOf(Column(q.cte.table, fs[i].name), env), WhereCondition.ExtractValue(fs[i].value).value))
    {
      assert WhereCondition.GetForArgument(fs[i], q.cte.table) == Ok(q.cte.where[i]);
    }
  }

  /** The value `hasNextPage` takes over the rows of the CTE, as SQL computes it: `None`
      is SQL NULL, the maximum of no rows. */
  function EvalHasNextPage(h: HasNextPage, counts: seq<int>): Option<bool> {
    match h
    case NoLimitFalse => Some(false)
    case ZeroLimitTrue => Some(true)
    case MaxCountExceeds(limit) => if |counts| == 0 then None else Some(Max(counts) > limit)
  }

  function Max(s: seq<int>): (r: int)
    requires |s| > 0
    ensures forall i :: 0 <= i < |s| ==> s[i] <= r
    ensures exists i :: 0 <= i < |s| && s[i] == r
  {
    if |s| == 1 then s[0]
    else
      var m := Max(s[1..]);
      assert forall i :: 1 <= i < |s| ==> s[i] == s[1..][i - 1];
      if s[0] >= m then s[0] else m
  }

  /** With `matching` rows passing the predicates, the CTE keeps the first `limit` of
      them, each carrying the window count `matching`. `hasNextPage` is then false
      without a limit and true for `first: 0`, whatever the rows; for a positive limit
      it says whether more rows match than the page holds, except that an empty page
      gives NULL. */
  lemma HasNextPageMeaning(limit: Option<int>, matching: nat)
    requires limit.Some? ==> limit.value >= 0
    ensures var page := if limit.Some? && limit.value < matching then limit.value else matching;
            var counts := seq(page, _ => matching as int);
            EvalHasNextPage(HasNextPageRule(limit), counts) ==
              if limit.None? then Some(false)
              else if limit.value == 0 then Some(true)
              else if matching == 0 then None
              else Some(matching > limit.value)
  {
    var page := if limit.Some? && limit.value < matching then limit.value else matching;
    var counts := seq(page, _ => matching as int);
    if limit.Some? && limit.value > 0 && matching > 0 {
      assert counts[0] == matching;
      assert Max(counts) == matching;
    }
  }

  /** An empty page with a positive limit: `MAX` over no rows is NULL, so the JSON
      holds `null` where a boolean is expected. */
  lemma HasNextPageNullOnEmptyPage()
    ensures EvalHasNextPage(HasNextPageRule(Some(1)), []) == None
  {
  }

  /** `hasNextPage` with the comparison wrapped in `COALESCE(…, false)`. */
  function EvalHasNextPageCoalesced(h: HasNextPage, counts: seq<int>): (r: bool)
    ensures EvalHasNextPage(h, counts).Some? ==> r == EvalHasNextPage(h, counts).value
    ensures EvalHasNextPage(h, counts).None? ==> !r
  {
    match EvalHasNextPage(h, counts)
    case Some(b) => b
    case None => false
  }

  /** With the coalesced comparison, a positive limit gives exactly "more rows match
      than the page holds", empty pages included. */
  lemma HasNextPageCoalescedMeaning(limit: int, matching: nat)
    requires limit > 0
    ensures var page := if limit < matching then limit else matching;
            EvalHasNextPageCoalesced(HasNextPageRule(Some(limit)), seq(page, _ => matching as int)) == (matching > limit)
  {
    HasNextPageMeaning(Some(limit), matching);
  }
}
