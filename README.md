# byos: a verified model of the GraphQL-to-SQL compiler

byos ("bring your own schema") answers a GraphQL query with one nested SQL statement
that builds the whole JSON response in the database. This project models the
decisions the compiler makes, and proves what they promise. The compiler works in
two passes.

1. **Query tree.** The GraphQL selection tree becomes a tree of attributes and
   relations. Each relation carries:
   - the resolved type of its field;
   - a SQL alias `<field>-<n>`, with `n` drawn from one shared counter per build;
   - for a Relay connection, the response keys of `edges`, `node`, `cursor`,
     `totalCount` and `pageInfo`.

   The counter that hands out the numbers is a `class` (`QueryTree.Counter`). The
   builder is a `class` (`QueryTree.QueryTranspiler`) whose methods are proved
   equal to a function of the selection tree.
2. **Resolution.** Each relation compiles into a common table expression (CTE) and
   an outer select that aggregates it into JSON. The model covers:
   - attribute de-duplication by alias;
   - the argument partition into `first`, `orderBy`, `after` and filters;
   - the effective order with primary-key tie-breakers;
   - the keyset predicate of `after`, and the filter predicates;
   - which columns the CTE projects;
   - the `hasNextPage` rule;
   - the output shape.

   SQL is an abstract syntax tree (`Sql.Condition`). Its conditions are evaluated
   over rows by `Sql.Holds`, against an abstract strict total order on values.

The model also covers the rest of the core:
- the relationship registry, which joins an inner table to its outer one;
- GraphQL type resolution through Non-Null and List wrappers;
- the two response reshapers, which unwrap singleton arrays: one rebuilds nodes and
  the other edits them in place;
- the `{"data":…}` envelope;
- the test suite's order-insensitive JSON comparison;
- the early prototype tree builder.

The older compiler generation in `byos/Logic.kt` is the same model under a flag:
- `QueryTree.Naming.Uuids` selects random-UUID aliases;
- `Resolver.Generation.Legacy` selects its order and projection rules.

Jackson's and jOOQ's own code, the database and the HTTP layer are not part of the
model. Their inputs and outputs are datatypes: `Json.Json`, `Sql.Condition` and
`GraphQL.Selection`. The JSON reader and writer are function parameters.

Two behaviours of the code worth noting:
- With `first: 0`, `hasNextPage` is the constant `true` in both generations
  (`QueryTranspiler.kt:237-241`, `byos/Logic.kt:238-242`). It does not depend on
  whether any row matches.
- With a positive `first` and no matching row, `MAX(count_after_cursor) > first` is
  SQL NULL, not `false`. See "## Findings".

## Model

Source paths are relative to the repository root.

| member | source | states |
|---|---|---|
| SchemaParsing.TypeInfoCharacterised | src/main/kotlin/byos/SchemaParsing.kt:15-30 | Resolution succeeds exactly when the innermost named type is an object type and at most one List wrapper is met, counting the enclosing one. Then it names that type and says "list" exactly when a List was met. Non-Null wrappers never change the answer. The copy of `getTypeInfo` at `byos/Logic.kt:286-301` is the same function. |
| SchemaParsing.GetFieldTypeInfo | src/main/kotlin/byos/SchemaParsing.kt:9-13 | It is an error when the type is unknown, when the type is not an object type, or when the field is missing. Otherwise the result is the field's declared type resolved from outside any list: the innermost object type's name, and "list" exactly when there is one List wrapper. |
| QueryTree.PageInfos | src/main/kotlin/byos/QueryTranspiler.kt:99-109 | Every `pageInfo` field must have a selection set. There is one page info per field, in order, under the field's response alias. Its `hasNextPage` and `endCursor` aliases are exactly those of its own sub-fields with those names. |
| QueryTree.AttributeDefaults | src/main/kotlin/byos/QueryTranspiler.kt:68-73 | A field without a selection set is an attribute under its alias, or under its name when it has none, and draws no number. |
| QueryTree.ConnectionShape | src/main/kotlin/byos/QueryTranspiler.kt:75-111 | A field with an `edges` sub-field builds only with exactly one `edges` field holding exactly one `node` field that has a selection set. Its type is reached via field, then `edges`, then `node`; that type is the parent of its children; its edges, node, cursor and totalCount keys are the aliases requested, and its page infos are exactly those built from its `pageInfo` fields. |
| QueryTree.PlainRelationShape | src/main/kotlin/byos/QueryTranspiler.kt:114-125 | Any other field with a selection set is a relation typed by its own field. Its children are built under that type, and it has no connection info. |
| QueryTree.BuildChildrenNumbered | src/main/kotlin/byos/QueryTranspiler.kt:58-127 | The relations of a built forest, in preorder, carry the SQL aliases `<name>-next`, `<name>-(next+1)`, and so on, with no gaps. |
| QueryTree.CountedAliasesDistinct | src/main/kotlin/byos/QueryTranspiler.kt:88 | With counter numbers, all SQL aliases of one build are pairwise distinct, even for self-relations with the same field name. |
| QueryTree.UuidAliasesDistinct | src/main/kotlin/byos/Logic.kt:98 | With UUIDs that never repeat and all have 36 characters, all SQL aliases of one build are pairwise distinct. |
| QueryTree.Counter.GetIncrementingNumber | src/main/kotlin/byos/QueryTranspiler.kt:88 | It returns the current number and advances the counter by one. |
| QueryTree.QueryTranspiler.GetChildrenFromSelectionSet | src/main/kotlin/byos/QueryTranspiler.kt:58-127 | The imperative builder, threading one counter, succeeds exactly when the functional build does. It then yields the same nodes and leaves the counter at the next free number. |
| QueryTree.QueryTranspiler.BuildRelationOrAttribute | src/main/kotlin/byos/QueryTranspiler.kt:66-126 | A relation draws its number before its children draw theirs. The result and the counter's new value equal the functional build of that one field. |
| QueryTree.QueryTranspiler.BuildInternalQueryTrees | src/main/kotlin/byos/QueryTranspiler.kt:55-56 | It starts one fresh counter per call. A top-level attribute fails the cast to a relation. On success the trees equal the functional build, and their SQL aliases are pairwise distinct. |
| Config.GetConditionForRelationship | src/main/kotlin/example/Config.kt:14-54 | There is a predicate exactly when one of the twelve registered (name, left, right) triples matches, and it is that entry's join. Every other triple gives `null`. |
| Config.RegistryDistinct | src/main/kotlin/example/Config.kt:15-51 | The twelve triples are pairwise distinct. |
| Config.LookupFindsEntry | src/main/kotlin/example/Config.kt:15-53 | With distinct triples, the first matching clause answers with a strategy exactly when the registry holds that entry. It gives no answer exactly when no entry has the triple. |
| Config.RegistryLookup | src/main/kotlin/example/Config.kt:15-53 | The registry answers a triple exactly when some entry carries it, and then with that entry's strategy. |
| Config.MirrorEntries | src/main/kotlin/example/Config.kt:16-51 | Each junction-table relation has a registered reverse entry using the same junction table with the sides swapped. `parent_category` and `subcategories` are each other's mirror. |
| Config.MirrorSameRows | src/main/kotlin/example/Config.kt:16-51 | A join predicate from `a` to `b` holds exactly when its mirror from `b` to `a` holds: an entry and its reverse relate the same pairs of rows. |
| Config.LanguageRelations | src/main/kotlin/example/Config.kt:32-33 | `language` and `original_language` both target `language.language_id`, from `language_id` and from `original_language_id` respectively. |
| WhereCondition.GetForRelationship | src/main/kotlin/byos/WhereCondition.kt:31-68 | A registered triple gives its predicate; every other triple is an error. |
| WhereCondition.ExtractValue | src/main/kotlin/byos/WhereCondition.kt:82-92 | List literals convert element-wise, recursively, and fail exactly when an element fails. Object literals and variables are errors. |
| WhereCondition.ExtractValues | src/main/kotlin/byos/WhereCondition.kt:90 | The list conversion keeps length and order, and the first failing element fails the list. |
| WhereCondition.ExtractToLiteral | src/main/kotlin/byos/WhereCondition.kt:82-92 | Every bound value is written by some literal: extracting that literal gives the value back. |
| WhereCondition.GetForArgument | src/main/kotlin/byos/WhereCondition.kt:71-80 | It succeeds exactly when the column exists and the literal converts. Then the predicate holds on a row exactly when the value matches, meaning one of: equality for a scalar; IS NULL for null; IN for a list, with `OR IS NULL` exactly when the list contains null. |
| WhereCondition.DecodeCursor | src/main/kotlin/byos/WhereCondition.kt:95-97 | The cursor decodes into (key, text) pairs in the JSON object's key order. |
| WhereCondition.FindSortField | src/main/kotlin/byos/WhereCondition.kt:106 | It finds an order field with that name, or reports that none has it. |
| WhereCondition.GetForAfterArgumentRec | src/main/kotlin/byos/WhereCondition.kt:102-124 | The predicate is built exactly when every cursor key names an order field; a key that names none fails. |
| WhereCondition.GetForAfterArgument | src/main/kotlin/byos/WhereCondition.kt:94-100 | An argument that is not a string literal, or whose text the JSON reader rejects, fails. Otherwise the predicate is exactly the recursive one over the decoded cursor. |
| WhereCondition.AfterPredicateIsLexAfter | src/main/kotlin/byos/WhereCondition.kt:102-124 | The keyset predicate holds on a row exactly when the row is strictly after the cursor in lexicographic order, field by field in each field's direction: `<` for DESC and `>` otherwise. An empty cursor gives no condition. |
| WhereCondition.LexAfterIsOrderedBefore | src/main/kotlin/byos/WhereCondition.kt:102-124 | For distinct order-field names, being lexicographically after row `r0`'s cursor is exactly being ordered after `r0` by the ORDER BY. |
| WhereCondition.AfterPredicateMatchesOrderBy | src/main/kotlin/byos/WhereCondition.kt:94-124 | The predicate built from row `r0`'s cursor selects exactly the rows that the ORDER BY puts after `r0`. This holds for mixed directions too. |
| Resolver.TableWithAlias | src/main/kotlin/byos/QueryTranspiler.kt:277-278 | The table is the catalog entry named by the lower-cased type name, under the relation's SQL alias. A type with no such table is an error. |
| Resolver.DistinctByAlias | src/main/kotlin/byos/QueryTranspiler.kt:133-134 | For every alias present it keeps the first attribute with that alias, and no other. Those first attributes keep their input order. |
| Resolver.AttributeColumns | src/main/kotlin/byos/QueryTranspiler.kt:135-137 | Every attribute's lower-cased name must be a column, otherwise it is an error. Each column is then selected under the attribute's response alias, in order. |
| Resolver.PartitionByName | src/main/kotlin/byos/QueryTranspiler.kt:146-148 | One `partition` splits the arguments into those with the name and the rest, together the same multiset. |
| Resolver.PartitionArguments | src/main/kotlin/byos/QueryTranspiler.kt:146-148 | The groups `first`, `orderBy`, `after` and filters are disjoint, and together they are exactly the arguments. |
| Resolver.FiltersKeepOrder | src/main/kotlin/byos/QueryTranspiler.kt:146-148 | The filter group holds the non-pagination arguments in their original order. |
| Resolver.LimitValue | src/main/kotlin/byos/QueryTranspiler.kt:150 | There is no limit without `first`. A `first` that is not an integer literal fails the cast; otherwise the limit is its value. |
| Resolver.HasNextPageRule | src/main/kotlin/byos/QueryTranspiler.kt:237-241 | Without a limit the value is false, and with `first: 0` it is true. Otherwise it is the comparison of the maximum `count_after_cursor` with the limit. |
| Resolver.Put | src/main/kotlin/byos/QueryTranspiler.kt:153-157 | A map entry goes last when new. An existing key keeps its place and takes the new value. No other key changes. |
| Resolver.Associate | src/main/kotlin/byos/QueryTranspiler.kt:153-157 | An `orderBy` field that is not a column, or whose value is not an enum, fails. Otherwise the keys are the lower-cased field names in the order of their first occurrence, each once, as an insertion-ordered map keeps them. |
| Resolver.AssociateLastWins | src/main/kotlin/byos/QueryTranspiler.kt:153-157 | When two `orderBy` fields name the same column, the later one's direction wins. |
| Resolver.ProvidedOrderCriteria | src/main/kotlin/byos/QueryTranspiler.kt:152-157 | Without `orderBy` the criteria are empty, and a non-object `orderBy` fails. An object is associated field by field, so the columns are its lower-cased field names in first-occurrence order. |
| Resolver.EffectiveOrder | src/main/kotlin/byos/QueryTranspiler.kt:158-166 | The order is the `orderBy` columns in the order given, then the primary-key fields not already listed, in primary-key order. Every key field appears, nothing else appears, and no name repeats. A field is DESC exactly when given as `DESC`, and the tie-breakers are ASC. |
| Resolver.FilterConditions | src/main/kotlin/byos/QueryTranspiler.kt:174 | There is one predicate per filter argument, in order. The first that fails fails the whole. |
| Resolver.PageInfoFields | src/main/kotlin/byos/QueryTranspiler.kt:233-250 | Each page info keeps its alias and its requested keys, and takes the relation's `hasNextPage` rule. |
| Resolver.ArgumentClauses | src/main/kotlin/byos/QueryTranspiler.kt:146-174 | The order is the effective order of the `orderBy` criteria, with no repeated name. The keyset predicate is the one `after` gives for that very order, or none without `after`. The WHERE holds the filter group's predicates and the limit is `first`'s. It fails exactly when the limit, the criteria, the `after` predicate or a filter fails. |
| Resolver.Assemble | src/main/kotlin/byos/QueryTranspiler.kt:176-271 | The CTE holds the given table, columns, sub-selects, join and clauses. The cursor is projected, as the order's column names, exactly when a cursor or end cursor is requested, and `count_after_cursor` exactly when `hasNextPage` is. The outer select reads only projected columns. A connection has the requested keys. |
| Resolver.Resolve | src/main/kotlin/byos/QueryTranspiler.kt:129-274 | The compiled relation keeps its alias and join. The shape is a connection object exactly for connections, a list exactly for other list fields, and an object otherwise. The projections follow the requests, and the cursor lists the order's names. Order names and attribute aliases are distinct, and there is one sub-select per child relation. `totalCount` counts with the filters and the join, but without `after` and the limit. What each part of the CTE is made of is stated by the three lemmas below. |
| Resolver.ResolvedParts | src/main/kotlin/byos/QueryTranspiler.kt:129-174 | The CTE's table is the relation's table, its columns those of the distinct attributes, its sub-selects those of the relation children, and its WHERE, keyset predicate, order and limit those its arguments compile to. |
| Resolver.ResolvedSubSelects | src/main/kotlin/byos/QueryTranspiler.kt:139-144 | The sub-select at each position is the relation child at that position, resolved under the join `getForRelationship` gives between the outer table and the child's table. |
| Resolver.ResolvedOrder | src/main/kotlin/byos/QueryTranspiler.kt:152-170 | The CTE's order is the effective order of the provided criteria, and its keyset predicate is the `after` predicate for that very order, or none without `after`. |
| Resolver.ResolveSubRelations | src/main/kotlin/byos/QueryTranspiler.kt:139-144 | One sub-select per relation child, in order, each the child resolved under its join. When a child fails, the whole fails with a failing child's error. |
| Resolver.ResolvedFiltersMeaning | src/main/kotlin/byos/QueryTranspiler.kt:174 | Each filter conjunct of the compiled WHERE holds on a row exactly when the filter argument matches the row's column. |
| Resolver.HasNextPageMeaning | src/main/kotlin/byos/QueryTranspiler.kt:237-241 | When `matching` rows pass the predicates, the value is false without a limit and true for `first: 0`. For a positive limit it says whether more rows match than the page holds, except that an empty page gives NULL. |
| Resolver.Max | src/main/kotlin/byos/QueryTranspiler.kt:240 | `MAX` over a non-empty set of counts is one of them and bounds them all. |
| Resolver.HasNextPageNullOnEmptyPage | src/main/kotlin/byos/QueryTranspiler.kt:240 | With `first: 1` and no row, `hasNextPage` is NULL. |
| Resolver.EvalHasNextPageCoalesced | src/main/kotlin/byos/QueryTranspiler.kt:237-241 | The corrected value is the computed one where that is defined, and false where SQL gives NULL. |
| Resolver.HasNextPageCoalescedMeaning | src/main/kotlin/byos/QueryTranspiler.kt:237-241 | With the corrected value, a positive limit gives exactly "more rows match than the page holds", empty pages included. |
| LegacyCompiler.UuidBuildAliasesDistinct | src/main/kotlin/byos/Logic.kt:68-135 | The older builder's SQL aliases `<name>-<UUID>` are pairwise distinct in one build. |
| LegacyCompiler.OrderWithoutKey | src/main/kotlin/byos/Logic.kt:164-167 | Without a primary key, the older compiler orders by the `orderBy` fields only, in the order given. |
| LegacyCompiler.CurrentOrderWithoutKey | src/main/kotlin/byos/QueryTranspiler.kt:158-160 | Without a primary key, the newer compiler falls back on every column of the table. |
| LegacyCompiler.AlwaysProjects | src/main/kotlin/byos/Logic.kt:185-186 | The older compiler projects the cursor and `count_after_cursor` for every relation. |
| LegacyCompiler.FixedConnectionKeys | src/main/kotlin/byos/Logic.kt:211-215 | The older compiler writes a connection under the literal keys `edges` and `node`. |
| JsonHelpers.UnwrapSingletonArray | src/main/kotlin/byos/JsonHelpers.kt:43-48 | An empty array gives null and a one-element array gives its element. A longer array is an error. |
| JsonHelpers.Unwrap | src/main/kotlin/byos/JsonHelpers.kt:17-41 | Arrays stay arrays of the same length, objects stay objects, and scalars are returned unchanged. |
| JsonHelpers.UnwrapItemsElementwise | src/main/kotlin/byos/JsonHelpers.kt:34-38 | Arrays are reshaped element by element, keeping order. The array fails exactly when an element fails. |
| JsonHelpers.UnwrapMembersOk | src/main/kotlin/byos/JsonHelpers.kt:20-31 | An object fails exactly when some member's new value fails. |
| JsonHelpers.UnwrapMembersKeys | src/main/kotlin/byos/JsonHelpers.kt:20-31 | The keys of the rebuilt object are the renamed keys, each once, in the order of their first occurrence. |
| JsonHelpers.UnwrapMembersLastWins | src/main/kotlin/byos/JsonHelpers.kt:21-30 | When two keys rename to the same key, the later member's value wins. |
| JsonHelpers.ObjectSuffixUnwraps | src/main/kotlin/byos/JsonHelpers.kt:22-26 | A key `<name>-object` holding an array is renamed to `<name>`. Its value becomes null or the only element, and a longer array fails. |
| JsonHelpers.UnwrapPlain | src/main/kotlin/byos/JsonHelpers.kt:17-41 | A tree with no `-object` in any key comes back unchanged: keys without the suffix keep their name and their place. |
| JooqHelpers.Unsingleton | src/main/kotlin/byos/JooqHelpers.kt:65-89 | The reshaping never grows the tree. Arrays keep their length, objects stay objects, and scalars are unchanged. |
| JooqHelpers.Step | src/main/kotlin/byos/JooqHelpers.kt:68-83 | One turn of the field loop never grows the object. |
| JooqHelpers.StepUnwraps | src/main/kotlin/byos/JooqHelpers.kt:70-79 | A `-singleton` key holding an array is handled in one of two ways. A longer array fails. Otherwise the stripped key is set to null or to the only element, the suffixed key is removed, and no other member changes. |
| JooqHelpers.StepRecurses | src/main/kotlin/byos/JooqHelpers.kt:80-82 | Any other member keeps its place and takes its reshaped value, and nothing else changes. |
| JooqHelpers.OnlySuffixedKeysRemoved | src/main/kotlin/byos/JooqHelpers.kt:70-79 | A key not ending in `-singleton` is never removed from an object. |
| JooqHelpers.UnsingletonPlain | src/main/kotlin/byos/JooqHelpers.kt:65-89 | A tree with distinct keys and no `-singleton` in any key comes back unchanged. |
| JooqHelpers.UnwrapSingletonArraysRecursively | src/main/kotlin/byos/JooqHelpers.kt:65-89 | The in-place reshaping, one field name at a time over the names the node had on entry, yields exactly the reshaped tree. |
| JooqHelpers.UnwrapObjectMembers | src/main/kotlin/byos/JooqHelpers.kt:66-83 | The loop over the field names, editing the members as earlier turns left them, yields the specified members. |
| JooqHelpers.UnwrapArrayItems | src/main/kotlin/byos/JooqHelpers.kt:84-87 | Each array element is reshaped in turn, and the first failure ends the loop. |
| JooqHelpers.UnwrapSingletonArrays | src/main/kotlin/byos/JooqHelpers.kt:58-63 | Text is read, reshaped and written back. It fails exactly when reading or reshaping fails. |
| JooqHelpers.FormatGraphQLResponse | src/main/kotlin/byos/JooqHelpers.kt:36-40 | Output shorter than two characters cannot have its brackets cut off and fails. Otherwise it succeeds exactly when reshaping the text between the first and the last character succeeds. |
| JooqHelpers.FormatEnvelope | src/main/kotlin/byos/JooqHelpers.kt:36-40 | The response is `{"data":` plus the reshaped text of everything between jOOQ's first and last character, plus `}`. |
| TestHelpers.FirstMatch | src/test/kotlin/byos/TestHelpers.kt:27-36 | The inner scan returns the first index not yet visited whose element compares equal. It returns none when no unvisited element does. |
| TestHelpers.CompareJsonNodes | src/test/kotlin/byos/TestHelpers.kt:19-55 | The comparison with its loops, visited set and found flag answers exactly what the specification of the comparison answers. |
| TestHelpers.CompareArrays | src/test/kotlin/byos/TestHelpers.kt:20-41 | Arrays of different sizes are unequal. Otherwise they are equal exactly when the first-come matching of elements succeeds. |
| TestHelpers.CompareObjects | src/test/kotlin/byos/TestHelpers.kt:42-51 | Objects of different sizes are unequal. Otherwise each member is checked in order. |
| TestHelpers.MatchingSound | src/test/kotlin/byos/TestHelpers.kt:24-40 | The indices the loops choose pair each element of the first array with an equal element of the second. No index is used twice, and no index already visited is used. |
| TestHelpers.ArraysEqual | src/test/kotlin/byos/TestHelpers.kt:20-41 | Equal arrays have the same size and a one-to-one pairing of equal elements. |
| TestHelpers.ObjectsEqual | src/test/kotlin/byos/TestHelpers.kt:42-51 | Objects are equal exactly when they have the same size and every key of the first is present in the second with an equal value. |
| TestHelpers.OtherwisePlainEquality | src/test/kotlin/byos/TestHelpers.kt:52-54 | Anything other than two arrays or two objects is compared by plain equality. |
| TestHelpers.ScalarArraysEqual | src/test/kotlin/byos/TestHelpers.kt:18-41 | Two arrays of scalars are equal exactly when one is a permutation of the other. Order is ignored; multiplicity is not. |
| TestHelpers.ReorderedScalarsEqual | src/test/kotlin/byos/TestHelpers.kt:18 | A reordered array compares equal, and one whose multiplicities differ does not. |
| Prototype.GetOperationTree | src/main/kotlin/com/example/byos/Logic.kt:23-31 | It succeeds exactly when every selection, at every depth, is a field, whatever its alias and arguments; a selection that is not a field fails the cast. On success each field becomes one node, in order: an attribute exactly when it has no sub-selection, under the field's name, with its children built recursively. |
| Prototype.GetOperationTreeRoundTrip | src/main/kotlin/com/example/byos/Logic.kt:23-31 | Every tree of nodes is read back unchanged from the selection set it describes, so number, order, names and kinds are all kept. |
| Prototype.BuildTree | src/main/kotlin/com/example/byos/Logic.kt:20-21 | An empty operation fails. It succeeds exactly when the tree's first node is a relation, and then returns that node, which is the first top-level field and has a sub-selection. |
| Prototype.BuildTreeRejectsAttribute | src/main/kotlin/com/example/byos/Logic.kt:20-21 | A first top-level field without a sub-selection fails the cast to a relation. |
| Prototype.ResolveTree | src/main/kotlin/com/example/byos/Logic.kt:33-46 | The select reads from the relation's table. It selects the attribute children's names as columns, then one nested select per child relation. |
| Prototype.SplitKeepsOrder | src/main/kotlin/com/example/byos/Logic.kt:34 | The split into attributes and relations distributes over concatenation, so each group keeps the children's order. |
| Prototype.SplitCoversChildren | src/main/kotlin/com/example/byos/Logic.kt:34 | Every child lands in exactly one of the two groups. |

## Left out

- The database, jOOQ's rendering and execution, and Jackson's reading and writing of
  text are foreign code. SQL is an abstract syntax tree. JSON is a datatype. The
  JSON reader and writer are function parameters (`parse`, `write`).
- SQL evaluation is two-valued: UNKNOWN counts as false. The predicates built here
  never negate, so this gives the same rows.
- Cursor values are compared as text against typed columns (`asText`). The model
  compares them under an abstract strict total order `lt`, which is a parameter of
  `Sql.Holds`.
- WhereCondition.AfterPredicateMatchesOrderBy: proved for the typed cursor
  `CursorOf(r0, …)` of a row, not for the text cursor that `DecodeCursor` gives. The
  model has no conversion from text to a column's type, and its equality of values
  is datatype equality, so a `TextV` never equals a typed value. The lemma also
  requires every order column to be non-NULL in both rows; nullable order columns
  are not covered.
- Float literals are kept as their text. No floating-point semantics are modelled.
- `Counter` is not shown in the repository. It is modelled as starting at 0 and
  adding one per call. The proofs use only that its numbers never repeat.
- `UUID.randomUUID()` is an oracle parameter `uuid: nat -> string`. The
  distinctness lemmas assume it never repeats and always gives 36 characters.
- The JSON schema file and the database catalog are inputs:
  - `SchemaParsing.Schema` is a map from type to fields;
  - `Sql.Catalog` is a map from table name to columns and primary key.
- JooqHelpers.UnwrapSingletonArraysRecursively: the loop runs over a snapshot of the
  names the object had on entry. In the source it runs over the live key iterator of
  the object's `LinkedHashMap`. Unwrapping a `-singleton` key always removes that key,
  which changes the map's structure. So whenever that key was not the object's last
  key when its turn came, the next turn throws `ConcurrentModificationException`. The
  model does not fail there: it carries on with the remaining names.
- The package `byos` declares `unwrapSingletonArrays(json: String)` twice, in
  `JsonHelpers.kt:10-15` (the `-object` reshaper) and in `JooqHelpers.kt:58-63` (the
  `-singleton` reshaper). The envelope of `formatGraphQLResponse` is modelled with
  the `-singleton` one, `JooqHelpers.UnwrapSingletonArrays`. The text wrapper at
  `JsonHelpers.kt:10-15` is not modelled separately; its tree reshaping is
  `JsonHelpers.Unwrap`.
- A negative `first` is accepted by `LimitValue` and reaches the database as a
  negative `LIMIT`, which the database rejects. Negative limits are outside the
  model: `Resolver.HasNextPageMeaning` requires a limit of at least 0.
- JsonHelpers.Unwrap: overwriting a node in place (`removeAll().setAll(…)` and
  `addAll(…)`) is modelled as returning the rebuilt node. Aliasing of shared nodes
  is not captured.
- JooqHelpers.UnwrapObjectMembers: an object's members are a local sequence the loop
  reassigns, not a shared mutable node.
- TestHelpers.CompareJsonNodes: reflexivity and symmetry on nested arrays are not
  proved, because first-come matching needs the element comparison to be an
  equivalence. The permutation property is proved for arrays of scalars.
- Jackson's own node equality, used for scalars, is datatype equality. Numeric node
  kinds such as int versus long are not distinguished.
- The `endCursor` sub-query, the window count and the JSON aggregation functions are
  kept as parts of the abstract statement, without database semantics.
- `resolveTree` in `com/example/byos/Logic.kt` renders with jOOQ. Its select is
  modelled as a datatype of column names, nested selects and a table name.
- HTTP, Spring, GraphiQL, request validation, SQL logging (`PrettyPrinter`), the
  `println` of the built relation trees at `byos/Logic.kt:69` and `executeJooqQuery` are I/O
  and are not modelled. `Compose.kt` is a copy of the
  prototype plus a database connection.

## Findings

| source | as written | input that shows it | evidently intended | confidence | as-written member | corrected member |
|---|---|---|---|---|---|---|
| src/main/kotlin/byos/QueryTranspiler.kt:240 | `MAX(count_after_cursor) > limit` over the page's rows | `first: 1` on a connection whose filters match no row: `MAX` over no rows is NULL, so `hasNextPage` is `null` | `false` when no row matches, e.g. by `COALESCE(…, false)` | not executed | Resolver.HasNextPageNullOnEmptyPage | Resolver.HasNextPageCoalescedMeaning |
