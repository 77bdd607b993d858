/** Where the older generation of the compiler (`Logic.kt` in package `byos`) differs
    from the newer one: random UUIDs instead of counter numbers in SQL aliases, no
    tie-breaker for a table without a primary key, the cursor and the window count
    always projected, and the literal keys `edges` and `node`. The older builder is
    `QueryTree.BuildTrees` with `Uuids` naming; the older compiler is
    `Resolver.Resolve` with `Legacy`. */
module LegacyCompiler {
  import opened Wrappers
  import opened Sql
  import opened SchemaParsing
  import opened QueryTree
  import opened Resolver
  import Json
  import Strings

  /** The older builder names every relation `<field name>-<UUID>`; with UUIDs that
      never repeat, and all of one length, the SQL aliases of a build are pairwise
      distinct. */
  lemma UuidBuildAliasesDistinct(schema: Schema, uuid: nat -> string, sels: seq<GraphQL.Selection>)
    requires FreshUuids(uuid)
    requires BuildTrees(schema, Uuids(uuid), sels).Ok?
    ensures Strings.Distinct(SqlAliasesOf(BuildTrees(schema, Uuids(uuid), sels).value))
  {
    UuidAliasesDistinct(schema, uuid, sels, schema.queryTypeName, 0);
  }

  /** Without a primary key the older compiler orders by the `orderBy` fields only,
      in the order given. */
  lemma OrderWithoutKey(criteria: seq<Criterion>, table: TableDef)
    requires Strings.Distinct(Columns(criteria)) && table.primaryKey.None?
    ensures var order := EffectiveOrder(Legacy, criteria, table);
            |order| == |criteria| && forall i :: 0 <= i < |order| ==> order[i].name == criteria[i].column
  {
    var order := EffectiveOrder(Legacy, criteria, table);
    assert Strings.Minus([], Columns(criteria)) == [];
    assert Strings.Dedup([], Columns(criteria)) == Columns(criteria);
  }

  /** The newer compiler instead falls back on every column of such a table, so that
      two different rows never tie on the whole order. */
  lemma CurrentOrderWithoutKey(criteria: seq<Criterion>, table: TableDef)
    requires Strings.Distinct(Columns(criteria)) && table.primaryKey.None?
    ensures var order := EffectiveOrder(Current, criteria, table);
            forall c :: c in table.fields ==> exists i :: 0 <= i < |order| && order[i].name == c
  {
    var order := EffectiveOrder(Current, criteria, table);
    forall c | c in table.fields ensures exists i :: 0 <= i < |order| && order[i].name == c {
      assert c in TieBreakers(Current, table);
    }
  }

  /** The older compiler projects the cursor and `count_after_cursor` for every
      relation, requested or not. */
  lemma AlwaysProjects(catalog: Catalog, parse: string -> Option<Json.Json>, rel: Node, join: Condition)
    requires rel.Relation? && Resolve(Legacy, catalog, parse, rel, join).Ok?
    ensures Resolve(Legacy, catalog, parse, rel, join).value.cte.cursor.Some?
    ensures Resolve(Legacy, catalog, parse, rel, join).value.cte.countAfterCursor
  {
  }

  /** The older compiler writes a connection under the keys `edges` and `node`,
      whatever aliases the query gave them. */
  lemma FixedConnectionKeys(catalog: Catalog, parse: string -> Option<Json.Json>, rel: Node, join: Condition)
    requires rel.Relation? && rel.connectionInfo.Some? && Resolve(Legacy, catalog, parse, rel, join).Ok?
    ensures var shape := Resolve(Legacy, catalog, parse, rel, join).value.shape;
            shape.ConnectionObject? && shape.edgesKey == "edges" && shape.nodeKey == "node"
  {
  }
}
