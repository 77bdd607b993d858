/** The first pass of the compiler: the GraphQL selection tree becomes a tree of
    attributes and relations, each relation carrying the resolved type of its field,
    a SQL alias and, for a Relay connection, the response keys of its edges, node,
    cursors, total counts and page infos. */
module QueryTree {
  import opened Wrappers
  import opened GraphQL
  import opened SchemaParsing
  import Strings

  datatype PageInfo = PageInfo(alias: string, hasNextPageAliases: seq<string>, endCursorAliases: seq<string>)

  /** Response keys of a connection: one edges and one node field, any number of
      `cursor`, `totalCount` and `pageInfo` fields. */
  datatype ConnectionInfo = ConnectionInfo(
    edgesAlias: string,
    nodeAlias: string,
    cursorAliases: seq<string>,
    totalCountAliases: seq<string>,
    pageInfos: seq<PageInfo>)

  datatype Node =
    | Attribute(fieldName: string, alias: string)
    | Relation(fieldName: string, alias: string, sqlAlias: string, typeInfo: FieldTypeInfo,
               children: seq<Node>, arguments: seq<Argument>, connectionInfo: Option<ConnectionInfo>)

  /** Where the suffix of a SQL alias comes from: the shared counter of one build, or
      (in the older generation) a random UUID per relation; `uuid(n)` is the UUID drawn
      by the n-th relation. */
  datatype Naming = Counted | Uuids(uuid: nat -> string)

  /** `"${selection.name}-${…}"` for the relation that draws number `n`. */
  function SqlAlias(naming: Naming, name: string, n: nat): string {
    match naming
    case Counted => name + "-" + Strings.Digits(n)
    case Uuids(uuid) => name + "-" + uuid(n)
  }

  /** A build step's value together with the next number to draw. */
  datatype Built<T> = Built(value: T, next: nat)

  /** The page infos of a connection; each `pageInfo` field needs a selection set. */
  function PageInfos(sels: seq<Selection>): (r: Result<seq<PageInfo>>)
    requires forall i :: 0 <= i < |sels| ==> sels[i].Field?
    ensures r.Ok? <==> forall i :: 0 <= i < |sels| ==> sels[i].selectionSet.Some?
    ensures r.Ok? ==> |r.value| == |sels| && forall i :: 0 <= i < |sels| ==> r.value[i].alias == ResponseAlias(sels[i])
    ensures r.Ok? ==> forall i :: 0 <= i < |sels| ==>
              r.value[i].hasNextPageAliases == AliasesOf(sels[i].selectionSet.value.selections, "hasNextPage") &&
              r.value[i].endCursorAliases == AliasesOf(sels[i].selectionSet.value.selections, "endCursor")
  {
    if |sels| == 0 then Ok([])
    else
      var s := sels[0];
      match s.selectionSet
      case None => Err("pageInfo has no selection set")
      case Some(ss) =>
        var rest :- PageInfos(sels[1..]);
        assert forall i :: 1 <= i < |sels| ==> sels[i] == sels[1..][i - 1];
        Ok([PageInfo(ResponseAlias(s), AliasesOf(ss.selections, "hasNextPage"),
                     AliasesOf(ss.selections, "endCursor"))] + rest)
  }

  /** `getChildrenFromSelectionSet` as a value: the fields of a selection set, in
      order, each built with the numbers left over by the ones before it. */
  function BuildChildren(schema: Schema, naming: Naming, sels: seq<Selection>, parent: string, next: nat): Result<Built<seq<Node>>>
    decreases sels, 0
  {
    if |sels| == 0 then Ok(Built([], next))
    else if !sels[0].Field? then BuildChildren(schema, naming, sels[1..], parent, next)
    else
      var first :- BuildField(schema, naming, sels[0], parent, next);
      var rest :- BuildChildren(schema, naming, sels[1..], parent, first.next);
      Ok(Built([first.value] + rest.value, rest.next))
  }

  /** One field of a selection set: an attribute without a selection set, a connection
      when the selection set holds an `edges` field, a plain relation otherwise. A
      relation draws its number before its children are built. */
  function BuildField(schema: Schema, naming: Naming, sel: Selection, parent: string, next: nat): Result<Built<Node>>
    requires sel.Field?
    decreases sel, 1
  {
    match sel.selectionSet
    case None => Ok(Built(Attribute(sel.name, ResponseAlias(sel)), next))
    case Some(ss) =>
      var sub := ss.selections;
      if |FieldsNamed(sub, "edges")| > 0 then
        var edges :- Single(sub, "edges");
        if edges.selectionSet.None? then Err("edges has no selection set")
        else
          var node :- Single(edges.selectionSet.value.selections, "node");
          var queryInfo :- GetFieldTypeInfo(schema, sel.name, parent);
          var edgesInfo :- GetFieldTypeInfo(schema, edges.name, queryInfo.graphQLTypeName);
          var nodeInfo :- GetFieldTypeInfo(schema, node.name, edgesInfo.graphQLTypeName);
          if node.selectionSet.None? then Err("node has no selection set")
          else
            NestedSmaller(sel, edges, node);
            var children :- BuildChildren(schema, naming, node.selectionSet.value.selections, nodeInfo.graphQLTypeName, next + 1);
            var pageInfos :- PageInfos(FieldsNamed(sub, "pageInfo"));
            var info := ConnectionInfo(ResponseAlias(edges), ResponseAlias(node),
                                       AliasesOf(edges.selectionSet.value.selections, "cursor"),
                                       AliasesOf(sub, "totalCount"), pageInfos);
            Ok(Built(Relation(sel.name, ResponseAlias(sel), SqlAlias(naming, sel.name, next), nodeInfo,
                              children.value, sel.arguments, Some(info)), children.next))
      else
        var info :- GetFieldTypeInfo(schema, sel.name, parent);
        var children :- BuildChildren(schema, naming, sub, info.graphQLTypeName, next + 1);
        Ok(Built(Relation(sel.name, ResponseAlias(sel), SqlAlias(naming, sel.name, next), info,
                          children.value, sel.arguments, None), children.next))
  }

  /** The node field of a connection lies inside the connection field. */
  lemma NestedSmaller(sel: Selection, edges: Selection, node: Selection)
    requires sel.Field? && sel.selectionSet.Some? && edges in sel.selectionSet.value.selections
    requires edges.Field? && edges.selectionSet.Some? && node in edges.selectionSet.value.selections
    ensures node < sel
  {
    var sub := sel.selectionSet.value.selections;
    var i :| 0 <= i < |sub| && sub[i] == edges;
    var j :| 0 <= j < |edges.selectionSet.value.selections| && edges.selectionSet.value.selections[j] == node;
  }

  /** `buildInternalQueryTrees`: the fields of the operation's selection set, built
      from the query root with fresh numbers; a top-level field without a selection
      set fails the cast to a relation. */
  function BuildTrees(schema: Schema, naming: Naming, sels: seq<Selection>): Result<seq<Node>> {
    var b :- BuildChildren(schema, naming, sels, schema.queryTypeName, 0);
    if forall i :: 0 <= i < |b.value| ==> b.value[i].Relation? then Ok(b.value)
    else Err("Attribute cannot be cast to Relation")
  }

  // ---------------------------------------------------------------------------
  // The imperative builder

  /** A source of SQL alias numbers: each call returns the current number and
      advances it. */
  class Counter {
    var next: nat

    constructor()
      ensures next == 0
    {
      next := 0;
    }

    method GetIncrementingNumber() returns (n: nat)
      modifies this
      ensures n == old(next) && next == old(next) + 1
    {
      n := next;
      next := next + 1;
    }
  }

  class QueryTranspiler {
    const schema: Schema

    constructor(schema: Schema)
      ensures this.schema == schema
    {
      this.schema := schema;
    }

    /** Builds the fields of `sels` in order, drawing numbers from `counter`. */
    method GetChildrenFromSelectionSet(sels: seq<Selection>, counter: Counter, parent: string) returns (r: Result<seq<Node>>)
      modifies counter
      decreases sels, 0
      ensures r.Ok? <==> BuildChildren(schema, Counted, sels, parent, old(counter.next)).Ok?
      ensures r.Ok? ==> Built(r.value, counter.next) == BuildChildren(schema, Counted, sels, parent, old(counter.next)).value
    {
      var acc: seq<Node> := [];
      var i := 0;
      assert sels[0..] == sels;
      ghost var whole := BuildChildren(schema, Counted, sels, parent, counter.next);
      if whole.Ok? {
        assert [] + whole.value.value == whole.value.value;
      }
      while i < |sels|
        invariant 0 <= i <= |sels|
        invariant Prepend(acc, BuildChildren(schema, Counted, sels[i..], parent, counter.next)) ==
                  BuildChildren(schema, Counted, sels, parent, old(counter.next))
      {
        assert sels[i..][0] == sels[i] && sels[i..][1..] == sels[i + 1..];
        if sels[i].Field? {
          var n := BuildRelationOrAttribute(sels[i], counter, parent);
          if n.Err? {
            return Err(n.message);
          }
          ghost var rest := BuildChildren(schema, Counted, sels[i + 1..], parent, counter.next);
          if rest.Ok? {
            assert acc + [n.value] + rest.value.value == acc + ([n.value] + rest.value.value);
          }
          acc := acc + [n.value];
        }
        i := i + 1;
      }
      assert sels[i..] == [] && acc + [] == acc;
      return Ok(acc);
    }

    /** One field; a relation takes its number from `counter` before its children do. */
    method BuildRelationOrAttribute(sel: Selection, counter: Counter, parent: string) returns (r: Result<Node>)
      requires sel.Field?
      modifies counter
      decreases sel, 1
      ensures r.Ok? <==> BuildField(schema, Counted, sel, parent, old(counter.next)).Ok?
      ensures r.Ok? ==> Built(r.value, counter.next) == BuildField(schema, Counted, sel, parent, old(counter.next)).value
    {
      if sel.selectionSet.None? {
        return Ok(Attribute(sel.name, ResponseAlias(sel)));
      }
      var sub := sel.selectionSet.value.selections;
      if |FieldsNamed(sub, "edges")| > 0 {
        var edges :- Single(sub, "edges");
        if edges.selectionSet.None? {
          return Err("edges has no selection set");
        }
        var node :- Single(edges.selectionSet.value.selections, "node");
        var queryInfo :- GetFieldTypeInfo(schema, sel.name, parent);
        var edgesInfo :- GetFieldTypeInfo(schema, edges.name, queryInfo.graphQLTypeName);
        var nodeInfo :- GetFieldTypeInfo(schema, node.name, edgesInfo.graphQLTypeName);
        if node.selectionSet.None? {
          return Err("node has no selection set");
        }
        NestedSmaller(sel, edges, node);
        var n := counter.GetIncrementingNumber();
        var children :- GetChildrenFromSelectionSet(node.selectionSet.value.selections, counter, nodeInfo.graphQLTypeName);
        var pageInfos :- PageInfos(FieldsNamed(sub, "pageInfo"));
        var info := ConnectionInfo(ResponseAlias(edges), ResponseAlias(node),
                                   AliasesOf(edges.selectionSet.value.selections, "cursor"),
                                   AliasesOf(sub, "totalCount"), pageInfos);
        return Ok(Relation(sel.name, ResponseAlias(sel), sel.name + "-" + Strings.Digits(n), nodeInfo,
                           children, sel.arguments, Some(info)));
      } else {
        var info :- GetFieldTypeInfo(schema, sel.name, parent);
        var n := counter.GetIncrementingNumber();
        var children :- GetChildrenFromSelectionSet(sub, counter, info.graphQLTypeName);
        return Ok(Relation(sel.name, ResponseAlias(sel), sel.name + "-" + Strings.Digits(n), info,
                           children, sel.arguments, None));
      }
    }

    /** `buildInternalQueryTrees`, with one fresh counter per call. */
    method BuildInternalQueryTrees(sels: seq<Selection>) returns (r: Result<seq<Node>>)
      ensures r.Ok? <==> BuildTrees(schema, Counted, sels).Ok?
      ensures r.Ok? ==> r.value == BuildTrees(schema, Counted, sels).value
      ensures r.Ok? ==> Strings.Distinct(SqlAliasesOf(r.value))
    {
      var counter := new Counter();
      var children := GetChildrenFromSelectionSet(sels, counter, schema.queryTypeName);
      if children.Err? {
        return Err(children.message);
      }
      if forall i :: 0 <= i < |children.value| ==> children.value[i].Relation? {
        r := Ok(children.value);
        CountedAliasesDistinct(schema, sels, schema.queryTypeName, 0);
      } else {
        r := Err("Attribute cannot be cast to Relation");
      }
    }
  }

  /** The result of the remaining fields, behind the nodes already built. */
  function Prepend(acc: seq<Node>, rest: Result<Built<seq<Node>>>): Result<Built<seq<Node>>> {
    match rest
    case Err(m) => Err(m)
    case Ok(b) => Ok(Built(acc + b.value, b.next))
  }

  // ---------------------------------------------------------------------------
  // Properties of the build

  /** A field without a selection set is an attribute under its alias, or under its
      name when it has none, and draws no number. */
  lemma AttributeDefaults(schema: Schema, naming: Naming, sel: Selection, parent: string, next: nat)
    requires sel.Field? && sel.selectionSet.None?
    ensures BuildField(schema, naming, sel, parent, next) ==
              Ok(Built(Attribute(sel.name, if sel.alias.Some? then sel.alias.value else sel.name), next))
  {
  }

  /** A connection builds only with exactly one `edges` field holding exactly one
      `node` field with a selection set. Its type is the one reached through the
      field, then `edges`, then `node`; the node's type is the parent of its children;
      the response keys of edges and node are their aliases. */
  lemma ConnectionShape(schema: Schema, naming: Naming, sel: Selection, parent: string, next: nat)
    requires sel.Field? && sel.selectionSet.Some? && |FieldsNamed(sel.selectionSet.value.selections, "edges")| > 0
    requires BuildField(schema, naming, sel, parent, next).Ok?
    ensures var sub := sel.selectionSet.value.selections;
            |FieldsNamed(sub, "edges")| == 1 &&
            var edges := FieldsNamed(sub, "edges")[0];
            edges.selectionSet.Some? && |FieldsNamed(edges.selectionSet.value.selections, "node")| == 1 &&
            var node := FieldsNamed(edges.selectionSet.value.selections, "node")[0];
            node.selectionSet.Some? &&
            var queryInfo := GetFieldTypeInfo(schema, sel.name, parent);
            queryInfo.Ok? &&
            var edgesInfo := GetFieldTypeInfo(schema, "edges", queryInfo.value.graphQLTypeName);
            edgesInfo.Ok? &&
            var nodeInfo := GetFieldTypeInfo(schema, "node", edgesInfo.value.graphQLTypeName);
            nodeInfo.Ok? &&
            var n := BuildField(schema, naming, sel, parent, next).value.value;
            && n.Relation?
            && n.typeInfo == nodeInfo.value
            && n.sqlAlias == SqlAlias(naming, sel.name, next)
            && n.connectionInfo.Some?
            && n.connectionInfo.value.edgesAlias == ResponseAlias(edges)
            && n.connectionInfo.value.nodeAlias == ResponseAlias(node)
            && n.connectionInfo.value.cursorAliases == AliasesOf(edges.selectionSet.value.selections, "cursor")
            && n.connectionInfo.value.totalCountAliases == AliasesOf(sub, "totalCount")
            && PageInfos(FieldsNamed(sub, "pageInfo")).Ok?
            && n.connectionInfo.value.pageInfos == PageInfos(FieldsNamed(sub, "pageInfo")).value
            && BuildChildren(schema, naming, node.selectionSet.value.selections, nodeInfo.value.graphQLTypeName, next + 1).Ok?
            && n.children == BuildChildren(schema, naming, node.selectionSet.value.selections, nodeInfo.value.graphQLTypeName, next + 1).value.value
  {
    var sub := sel.selectionSet.value.selections;
    var edges := Single(sub, "edges").value;
    assert FieldsNamed(sub, "edges")[0] in FieldsNamed(sub, "edges");
    var node := Single(edges.selectionSet.value.selections, "node").value;
    assert FieldsNamed(edges.selectionSet.value.selections, "node")[0] in FieldsNamed(edges.selectionSet.value.selections, "node");
  }

  /** A field with a selection set but no `edges` field is a plain relation typed by
      its own field, whose children are built under that type. */
  lemma PlainRelationShape(schema: Schema, naming: Naming, sel: Selection, parent: string, next: nat)
    requires sel.Field? && sel.selectionSet.Some? && |FieldsNamed(sel.selectionSet.value.selections, "edges")| == 0
    requires BuildField(schema, naming, sel, parent, next).Ok?
    ensures var info := GetFieldTypeInfo(schema, sel.name, parent);
            info.Ok? &&
            var n := BuildField(schema, naming, sel, parent, next).value.value;
            && n == Relation(sel.name, ResponseAlias(sel), SqlAlias(naming, sel.name, next), info.value,
                             n.children, sel.arguments, None)
            && n.children == BuildChildren(schema, naming, sel.selectionSet.value.selections, info.value.graphQLTypeName, next + 1).value.value
  {
  }

  /** SQL aliases of the relations of a forest, in preorder. */
  function SqlAliasesOf(nodes: seq<Node>): seq<string>
    decreases nodes, 0
  {
    if |nodes| == 0 then [] else NodeSqlAliases(nodes[0]) + SqlAliasesOf(nodes[1..])
  }

  function NodeSqlAliases(n: Node): seq<string>
    decreases n, 1
  {
    match n
    case Attribute(_, _) => []
    case Relation(_, _, a, _, children, _, _) => [a] + SqlAliasesOf(children)
  }

  /** Field names of the relations of a forest, in the same preorder. */
  function RelationNames(nodes: seq<Node>): seq<string>
    decreases nodes, 0
  {
    if |nodes| == 0 then [] else NodeRelationNames(nodes[0]) + RelationNames(nodes[1..])
  }

  function NodeRelationNames(n: Node): seq<string>
    decreases n, 1
  {
    match n
    case Attribute(_, _) => []
    case Relation(f, _, _, _, children, _, _) => [f] + RelationNames(children)
  }

  /** The relations of a built forest, in preorder, are numbered `next`, `next + 1`,
      … up to the returned next number: relation `i` carries alias
      `SqlAlias(naming, name, next + i)`. */
  predicate NumberedFrom(nodes: seq<Node>, naming: Naming, first: nat, end: nat) {
    && |SqlAliasesOf(nodes)| == end - first
    && |RelationNames(nodes)| == end - first
    && forall i :: 0 <= i < end - first ==>
         SqlAliasesOf(nodes)[i] == SqlAlias(naming, RelationNames(nodes)[i], first + i)
  }

  lemma NumberedConcat(a: seq<Node>, b: seq<Node>, naming: Naming, first: nat, mid: nat, end: nat)
    requires first <= mid <= end
    requires NumberedFrom(a, naming, first, mid) && NumberedFrom(b, naming, mid, end)
    ensures SqlAliasesOf(a + b) == SqlAliasesOf(a) + SqlAliasesOf(b)
    ensures RelationNames(a + b) == RelationNames(a) + RelationNames(b)
    ensures NumberedFrom(a + b, naming, first, end)
  {
    ForestConcat(a, b);
    var s, ns := SqlAliasesOf(a + b), RelationNames(a + b);
    forall i | 0 <= i < end - first
      ensures s[i] == SqlAlias(naming, ns[i], first + i)
    {
      if i >= mid - first {
        assert s[i] == SqlAliasesOf(b)[i - (mid - first)];
        assert ns[i] == RelationNames(b)[i - (mid - first)];
      }
    }
  }

  lemma {:induction false} ForestConcat(a: seq<Node>, b: seq<Node>)
    ensures SqlAliasesOf(a + b) == SqlAliasesOf(a) + SqlAliasesOf(b)
    ensures RelationNames(a + b) == RelationNames(a) + RelationNames(b)
  {
    if |a| > 0 {
      assert (a + b)[1..] == a[1..] + b;
      ForestConcat(a[1..], b);
    } else {
      assert a + b == b;
    }
  }

  lemma {:induction false} BuildChildrenNumbered(schema: Schema, naming: Naming, sels: seq<Selection>, parent: string, next: nat)
    requires BuildChildren(schema, naming, sels, parent, next).Ok?
    ensures var b := BuildChildren(schema, naming, sels, parent, next).value;
            next <= b.next && NumberedFrom(b.value, naming, next, b.next)
    decreases sels, 0
  {
    if |sels| == 0 {
    } else if !sels[0].Field? {
      BuildChildrenNumbered(schema, naming, sels[1..], parent, next);
    } else {
      var first := BuildField(schema, naming, sels[0], parent, next).value;
      var rest := BuildChildren(schema, naming, sels[1..], parent, first.next).value;
      BuildFieldNumbered(schema, naming, sels[0], parent, next);
      BuildChildrenNumbered(schema, naming, sels[1..], parent, first.next);
      assert SqlAliasesOf([first.value]) == NodeSqlAliases(first.value);
      assert RelationNames([first.value]) == NodeRelationNames(first.value);
      NumberedConcat([first.value], rest.value, naming, next, first.next, rest.next);
    }
  }

  lemma {:induction false} BuildFieldNumbered(schema: Schema, naming: Naming, sel: Selection, parent: string, next: nat)
    requires sel.Field? && BuildField(schema, naming, sel, parent, next).Ok?
    ensures var b := BuildField(schema, naming, sel, parent, next).value;
            next <= b.next &&
            |NodeSqlAliases(b.value)| == b.next - next &&
            |NodeRelationNames(b.value)| == b.next - next &&
            forall i :: 0 <= i < b.next - next ==>
              NodeSqlAliases(b.value)[i] == SqlAlias(naming, NodeRelationNames(b.value)[i], next + i)
    decreases sel, 1
  {
    if sel.selectionSet.Some? {
      var sub := sel.selectionSet.value.selections;
      var b := BuildField(schema, naming, sel, parent, next).value;
      var childSels: seq<Selection>, childParent := sub, b.value.typeInfo.graphQLTypeName;
      if |FieldsNamed(sub, "edges")| > 0 {
        var edges := Single(sub, "edges").value;
        var node := Single(edges.selectionSet.value.selections, "node").value;
        NestedSmaller(sel, edges, node);
        childSels := node.selectionSet.value.selections;
        BuildChildrenNumbered(schema, naming, node.selectionSet.value.selections, childParent, next + 1);
      } else {
        BuildChildrenNumbered(schema, naming, sub, childParent, next + 1);
      }
      var c := BuildChildren(schema, naming, childSels, childParent, next + 1).value;
      assert b.value.Relation? && b.value.fieldName == sel.name && b.value.sqlAlias == SqlAlias(naming, sel.name, next);
      assert b.value.children == c.value && b.next == c.next;
      RelationNumbered(b.value, naming, next, b.next);
    }
  }

  /** A relation numbered `first`, whose children are numbered from `first + 1` to
      `end`, is numbered from `first` to `end` together with its children. */
  lemma RelationNumbered(n: Node, naming: Naming, first: nat, end: nat)
    requires n.Relation? && n.sqlAlias == SqlAlias(naming, n.fieldName, first)
    requires first + 1 <= end && NumberedFrom(n.children, naming, first + 1, end)
    ensures |NodeSqlAliases(n)| == end - first && |NodeRelationNames(n)| == end - first
    ensures forall i :: 0 <= i < end - first ==>
              NodeSqlAliases(n)[i] == SqlAlias(naming, NodeRelationNames(n)[i], first + i)
  {
    var s, ns := NodeSqlAliases(n), NodeRelationNames(n);
    assert s == [n.sqlAlias] + SqlAliasesOf(n.children);
    assert ns == [n.fieldName] + RelationNames(n.children);
    forall i | 0 <= i < end - first
      ensures s[i] == SqlAlias(naming, ns[i], first + i)
    {
      if i > 0 {
        assert s[i] == SqlAliasesOf(n.children)[i - 1];
        assert ns[i] == RelationNames(n.children)[i - 1];
      }
    }
  }

  /** With counter numbers, the SQL aliases of one build are pairwise distinct, self
      relations included: the number after the last `-` tells them apart. */
  lemma CountedAliasesDistinct(schema: Schema, sels: seq<Selection>, parent: string, next: nat)
    requires BuildChildren(schema, Counted, sels, parent, next).Ok?
    ensures Strings.Distinct(SqlAliasesOf(BuildChildren(schema, Counted, sels, parent, next).value.value))
  {
    var b := BuildChildren(schema, Counted, sels, parent, next).value;
    BuildChildrenNumbered(schema, Counted, sels, parent, next);
    var s, ns := SqlAliasesOf(b.value), RelationNames(b.value);
    forall i, j | 0 <= i < j < |s| ensures s[i] != s[j] {
      Strings.NumberSuffixRoundTrip(ns[i], next + i);
      Strings.NumberSuffixRoundTrip(ns[j], next + j);
    }
  }

  /** A UUID oracle that never repeats and always yields 36 characters. */
  ghost predicate FreshUuids(uuid: nat -> string) {
    && (forall n :: |uuid(n)| == 36)
    && (forall m, n :: m != n ==> uuid(m) != uuid(n))
  }

  /** With never-repeating UUIDs of fixed length, the SQL aliases of one build are
      pairwise distinct: the last 36 characters tell them apart. */
  lemma UuidAliasesDistinct(schema: Schema, uuid: nat -> string, sels: seq<Selection>, parent: string, next: nat)
    requires FreshUuids(uuid)
    requires BuildChildren(schema, Uuids(uuid), sels, parent, next).Ok?
    ensures Strings.Distinct(SqlAliasesOf(BuildChildren(schema, Uuids(uuid), sels, parent, next).value.value))
  {
    var b := BuildChildren(schema, Uuids(uuid), sels, parent, next).value;
    BuildChildrenNumbered(schema, Uuids(uuid), sels, parent, next);
    var s, ns := SqlAliasesOf(b.value), RelationNames(b.value);
    forall i, j | 0 <= i < j < |s| ensures s[i] != s[j] {
      assert s[i][|s[i]| - 36..] == uuid(next + i);
      assert s[j][|s[j]| - 36..] == uuid(next + j);
    }
  }
}
