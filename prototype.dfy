/** The early prototype of `com/example/byos/Logic.kt`: the selection set becomes a
    tree of relations and attributes, and a relation becomes a select of its
    attribute columns followed by one nested multiset select per child relation. */
module Prototype {
  import opened Wrappers
  import opened GraphQL

  /** `QueryNode`: a selection with a sub-selection is a relation, one without is an
      attribute. */
  datatype QueryNode =
    | Relation(value: string, children: seq<QueryNode>)
    | Attribute(value: string)

  /** The jOOQ query `resolveTree` builds: the attribute columns, the nested selects
      of the child relations, and the table it reads from. */
  datatype Select = Select(fields: seq<string>, subSelects: seq<Select>, from: string)

  /** Every selection, at every depth, is a field. Aliases and arguments play no part. */
  predicate AllFields(sels: seq<Selection>) {
    |sels| == 0 ||
    (&& sels[0].Field?
     && (sels[0].selectionSet.Some? ==> AllFields(sels[0].selectionSet.value.selections))
     && AllFields(sels[1..]))
  }

  /** `getOperationTree(selectionSet)`: one node per selection, in order; a selection
      that is not a field fails the cast, and nothing else fails. */
  function GetOperationTree(sels: seq<Selection>): (r: Result<seq<QueryNode>>)
    ensures r.Ok? <==> AllFields(sels)
    ensures (exists i :: 0 <= i < |sels| && !sels[i].Field?) ==> r.Err?
    ensures r.Ok? ==> |r.value| == |sels|
    ensures r.Ok? ==> forall i :: 0 <= i < |sels| ==>
              && sels[i].Field?
              && r.value[i].value == sels[i].name
              && (sels[i].selectionSet.None? <==> r.value[i].Attribute?)
              && (sels[i].selectionSet.Some? ==>
                    GetOperationTree(sels[i].selectionSet.value.selections) == Ok(r.value[i].children))
  {
    if |sels| == 0 then Ok([])
    else if !sels[0].Field? then
      Err("class cast: selection is not a Field")
    else
      var node :-
        match sels[0].selectionSet
        case None => Ok(Attribute(sels[0].name))
        case Some(sub) =>
          var children :- GetOperationTree(sub.selections);
          Ok(Relation(sels[0].name, children));
      var rest :- GetOperationTree(sels[1..]);
      assert forall i :: 1 <= i < |sels| ==> sels[i] == sels[1..][i - 1];
      Ok([node] + rest)
  }

  /** `buildTree(queryDefinition)`: the first top-level node, which must be a
      relation. */
  function BuildTree(operation: SelectionSet): (r: Result<QueryNode>)
    ensures |operation.selections| == 0 ==> r.Err?
    ensures r.Ok? ==> operation.selections[0].Field? && operation.selections[0].selectionSet.Some? &&
                      r.value.Relation? && r.value.value == operation.selections[0].name
    ensures var tree := GetOperationTree(operation.selections);
            tree.Ok? && |tree.value| > 0 && tree.value[0].Relation? ==> r == Ok(tree.value[0])
    ensures r.Ok? <==> var tree := GetOperationTree(operation.selections);
                       tree.Ok? && |tree.value| > 0 && tree.value[0].Relation?
  {
    var tree :- GetOperationTree(operation.selections);
    if |tree| == 0 then Err("index out of bounds: 0")
    else if !tree[0].Relation? then Err("class cast: node is not a Relation")
    else Ok(tree[0])
  }

  /** The names of the attribute children, in order. */
  function AttributeNames(nodes: seq<QueryNode>): seq<string> {
    if |nodes| == 0 then []
    else if nodes[0].Attribute? then [nodes[0].value] + AttributeNames(nodes[1..])
    else AttributeNames(nodes[1..])
  }

  /** The relation children, in order. */
  function Relations(nodes: seq<QueryNode>): (r: seq<QueryNode>)
    ensures forall i :: 0 <= i < |r| ==> r[i].Relation? && r[i] in nodes
  {
    if |nodes| == 0 then []
    else if nodes[0].Relation? then [nodes[0]] + Relations(nodes[1..])
    else Relations(nodes[1..])
  }

  /** `resolveTree(relation)` */
  function ResolveTree(rel: QueryNode): (r: Select)
    requires rel.Relation?
    ensures r.from == rel.value && r.fields == AttributeNames(rel.children)
    ensures |r.subSelects| == |Relations(rel.children)|
    ensures forall i :: 0 <= i < |r.subSelects| ==> r.subSelects[i] == ResolveTree(Relations(rel.children)[i])
  {
    var relations := Relations(rel.children);
    Select(AttributeNames(rel.children), ResolveAll(rel, relations), rel.value)
  }

  function ResolveAll(rel: QueryNode, relations: seq<QueryNode>): (r: seq<Select>)
    requires rel.Relation? && forall i :: 0 <= i < |relations| ==> relations[i].Relation? && relations[i] in rel.children
    ensures |r| == |relations| && forall i :: 0 <= i < |r| ==> r[i] == ResolveTree(relations[i])
    decreases rel, |relations|
  {
    if |relations| == 0 then []
    else ResolveAll(rel, relations[..|relations| - 1]) + [ResolveTree(relations[|relations| - 1])]
  }

  // ---------------------------------------------------------------------------
  // Properties

  /** The selection set a tree of nodes is read from: a relation is a field with a
      sub-selection, an attribute a field without one. */
  function Selections(nodes: seq<QueryNode>): (r: seq<Selection>)
    ensures |r| == |nodes|
  {
    if |nodes| == 0 then []
    else
      var sub := match nodes[0]
        case Relation(name, children) => Some(SelectionSet(Selections(children)))
        case Attribute(_) => None;
      [Field(nodes[0].value, None, [], sub)] + Selections(nodes[1..])
  }

  /** Every tree of nodes is read back from its selection set unchanged: the number,
      order, names and kinds of the selections are all kept. */
  lemma {:induction false} GetOperationTreeRoundTrip(nodes: seq<QueryNode>)
    ensures GetOperationTree(Selections(nodes)) == Ok(nodes)
  {
    if |nodes| > 0 {
      var sels := Selections(nodes);
      assert sels[1..] == Selections(nodes[1..]);
      GetOperationTreeRoundTrip(nodes[1..]);
      assert [nodes[0]] + nodes[1..] == nodes;
      match nodes[0]
      case Relation(name, children) => GetOperationTreeRoundTrip(children);
      case Attribute(_) =>
    }
  }

  /** The split of the children keeps the order within each group: it distributes
      over concatenation. */
  lemma {:induction false} SplitKeepsOrder(a: seq<QueryNode>, b: seq<QueryNode>)
    ensures AttributeNames(a + b) == AttributeNames(a) + AttributeNames(b)
    ensures Relations(a + b) == Relations(a) + Relations(b)
  {
    if |a| > 0 {
      assert (a + b)[1..] == a[1..] + b;
      SplitKeepsOrder(a[1..], b);
    } else {
      assert a + b == b;
    }
  }

  /** Every child lands in exactly one of the two groups. */
  lemma {:induction false} SplitCoversChildren(nodes: seq<QueryNode>)
    ensures |AttributeNames(nodes)| + |Relations(nodes)| == |nodes|
  {
    if |nodes| > 0 {
      SplitCoversChildren(nodes[1..]);
    }
  }

  /** A first top-level field without a sub-selection is an attribute, which the cast
      to a relation rejects. */
  lemma BuildTreeRejectsAttribute(name: string, rest: seq<Selection>)
    ensures BuildTree(SelectionSet([Field(name, None, [], None)] + rest)).Err?
  {
    var sels := [Field(name, None, [], None)] + rest;
    assert sels[0] == Field(name, None, [], None);
  }
}
