/** The SQL the compiler produces, as an abstract syntax tree instead of jOOQ
    objects, with the meaning of a WHERE condition over one combination of rows. */
module Sql {
  import opened Wrappers

  /** The generated table classes the relationship registry tests with `is`. */
  datatype TableKind =
    | Actor | Category | Film | Inventory | Language | Store
    | FilmActor | FilmCategory
    | OtherTable(name: string)

  /** A table of the generated catalog: its class, its columns in declaration order
      and its primary key, if it has one. */
  datatype TableDef = TableDef(kind: TableKind, fields: seq<string>, primaryKey: Option<seq<string>>)

  /** `Public.PUBLIC.getTable(name)`, keyed by lower-case table name. */
  type Catalog = map<string, TableDef>

  /** A catalog table under an alias (`table.as(sqlAlias)`). */
  datatype TableRef = TableRef(def: TableDef, alias: string)

  /** What a column reference is qualified by: an aliased table of the statement, or a
      junction table referred to under its own name inside an EXISTS. */
  datatype Source = Alias(alias: string) | JunctionTable(kind: TableKind)

  /** A bound value: what `extractValue` yields (BigInteger, BigDecimal, Boolean,
      String, null or a list) and what a row holds. */
  datatype SqlValue =
    | IntV(i: int)
    | DecimalV(text: string)
    | BoolV(b: bool)
    | TextV(s: string)
    | NullV
    | ListV(items: seq<SqlValue>)

  datatype Operand = Col(src: Source, column: string) | Lit(v: SqlValue)

  function Column(t: TableRef, name: string): Operand {
    Col(Alias(t.alias), name)
  }

  /** A jOOQ `Condition`. `NoCondition` is `DSL.noCondition()`. */
  datatype Condition =
    | NoCondition
    | Eq(left: Operand, right: Operand)
    | Gt(left: Operand, right: Operand)
    | Lt(left: Operand, right: Operand)
    | IsNull(operand: Operand)
    | In(operand: Operand, values: seq<SqlValue>)
    | And(l: Condition, r: Condition)
    | Or(l: Condition, r: Condition)
    | Exists(junction: TableKind, where: Condition)

  /** `a.and(b)`: jOOQ drops a `noCondition()` operand. */
  function AndC(a: Condition, b: Condition): Condition {
    if a == NoCondition then b else if b == NoCondition then a else And(a, b)
  }

  /** `a.or(b)`: jOOQ drops a `noCondition()` operand. */
  function OrC(a: Condition, b: Condition): Condition {
    if a == NoCondition then b else if b == NoCondition then a else Or(a, b)
  }

  /** One ORDER BY item: a column and whether it sorts descending. */
  datatype SortField = SortField(name: string, desc: bool)

  type Row = map<string, SqlValue>

  /** The rows a column reference can see: one row per table occurrence. */
  type Env = map<Source, Row>

  /** Contents of the junction tables an EXISTS ranges over. */
  type Db = map<TableKind, seq<Row>>

  function ValueOf(o: Operand, env: Env): SqlValue {
    match o
    case Lit(v) => v
    case Col(src, c) => if src in env && c in env[src] then env[src][c] else NullV
  }

  /** Whether a WHERE condition is TRUE for the rows in `env`. SQL's UNKNOWN counts as
      not TRUE; as the compiler never negates a condition, treating every comparison
      with NULL as false gives the same verdict as three-valued logic. `lt` is the
      database's order on the compared values. */
  predicate Holds(c: Condition, env: Env, db: Db, lt: (SqlValue, SqlValue) -> bool) {
    match c
    case NoCondition => true
    case Eq(a, b) =>
      var x, y := ValueOf(a, env), ValueOf(b, env);
      x != NullV && y != NullV && x == y
    case Gt(a, b) =>
      var x, y := ValueOf(a, env), ValueOf(b, env);
      x != NullV && y != NullV && lt(y, x)
    case Lt(a, b) =>
      var x, y := ValueOf(a, env), ValueOf(b, env);
      x != NullV && y != NullV && lt(x, y)
    case IsNull(a) => ValueOf(a, env) == NullV
    case In(a, vs) =>
      var x := ValueOf(a, env);
      x != NullV && x in vs
    case And(l, r) => Holds(l, env, db, lt) && Holds(r, env, db, lt)
    case Or(l, r) => Holds(l, env, db, lt) || Holds(r, env, db, lt)
    case Exists(j, w) =>
      var rows := if j in db then db[j] else [];
      exists i :: 0 <= i < |rows| && Holds(w, env[JunctionTable(j) := rows[i]], db, lt)
  }

  lemma AndCHolds(a: Condition, b: Condition, env: Env, db: Db, lt: (SqlValue, SqlValue) -> bool)
    ensures Holds(AndC(a, b), env, db, lt) <==> Holds(a, env, db, lt) && Holds(b, env, db, lt)
  {
  }

  lemma OrCHolds(a: Condition, b: Condition, env: Env, db: Db, lt: (SqlValue, SqlValue) -> bool)
    requires a != NoCondition && b != NoCondition
    ensures Holds(OrC(a, b), env, db, lt) <==> Holds(a, env, db, lt) || Holds(b, env, db, lt)
  {
  }

  ghost predicate StrictTotalOrder(lt: (SqlValue, SqlValue) -> bool) {
    && (forall x :: !lt(x, x))
    && (forall x, y, z :: lt(x, y) && lt(y, z) ==> lt(x, z))
    && (forall x, y :: x != y ==> lt(x, y) || lt(y, x))
  }

  function Get(r: Row, c: string): SqlValue {
    if c in r then r[c] else NullV
  }

  /** ORDER BY as a comparator: `a` sorts strictly before `b` when, at the first
      sort field where the two differ, `a`'s value comes first in that field's
      direction. */
  predicate OrderedBefore(a: Row, b: Row, orderBy: seq<SortField>, lt: (SqlValue, SqlValue) -> bool) {
    if |orderBy| == 0 then false
    else
      var f := orderBy[0];
      var x, y := Get(a, f.name), Get(b, f.name);
      if x == y then OrderedBefore(a, b, orderBy[1..], lt)
      else if f.desc then lt(y, x) else lt(x, y)
  }
}
