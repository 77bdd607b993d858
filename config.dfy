/** The relationship registry of the embedding application: for a relationship
    field name and the classes of the outer (left) and inner (right) tables, the
    join predicate that ties an inner row to its outer row. */
module Config {
  import opened Wrappers
  import opened Sql

  /** How the two tables are joined: equality of a left column with a right column,
      or an EXISTS over a junction table whose row matches both sides. */
  datatype JoinStrategy =
    | KeyEquality(leftColumn: string, rightColumn: string)
    | ThroughJunction(junction: TableKind, leftColumn: string, junctionLeft: string,
                      junctionRight: string, rightColumn: string)

  datatype Entry = Entry(name: string, left: TableKind, right: TableKind, strategy: JoinStrategy)

  /** The twelve clauses of the `when` expression, in source order. */
  const Registry: seq<Entry> := [
    Entry("actors", Film, Actor, ThroughJunction(FilmActor, "film_id", "film_id", "actor_id", "actor_id")),
    Entry("films", Actor, Film, ThroughJunction(FilmActor, "actor_id", "actor_id", "film_id", "film_id")),
    Entry("stores", Film, Store, ThroughJunction(Inventory, "film_id", "film_id", "store_id", "store_id")),
    Entry("films", Store, Film, ThroughJunction(Inventory, "store_id", "store_id", "film_id", "film_id")),
    Entry("language", Film, Language, KeyEquality("language_id", "language_id")),
    Entry("original_language", Film, Language, KeyEquality("original_language_id", "language_id")),
    Entry("inventories", Store, Inventory, KeyEquality("store_id", "store_id")),
    Entry("film", Inventory, Film, KeyEquality("film_id", "film_id")),
    Entry("categories", Film, Category, ThroughJunction(FilmCategory, "film_id", "film_id", "category_id", "category_id")),
    Entry("films", Category, Film, ThroughJunction(FilmCategory, "category_id", "category_id", "film_id", "film_id")),
    Entry("parent_category", Category, Category, KeyEquality("parent_category_id", "category_id")),
    Entry("subcategories", Category, Category, KeyEquality("category_id", "parent_category_id"))
  ]

  predicate SameKey(e: Entry, name: string, left: TableKind, right: TableKind) {
    e.name == name && e.left == left && e.right == right
  }

  predicate DistinctEntries(entries: seq<Entry>) {
    forall i, j :: 0 <= i < j < |entries| ==> !SameKey(entries[j], entries[i].name, entries[i].left, entries[i].right)
  }

  /** The first clause whose triple matches, as a `when` expression picks it. */
  function Lookup(entries: seq<Entry>, name: string, left: TableKind, right: TableKind): Option<JoinStrategy> {
    if |entries| == 0 then None
    else if SameKey(entries[0], name, left, right) then Some(entries[0].strategy)
    else Lookup(entries[1..], name, left, right)
  }

  /** With pairwise distinct triples, a lookup answers with a strategy exactly when
      an entry carries that triple and strategy: at most one clause can apply. */
  lemma {:induction false} LookupFindsEntry(entries: seq<Entry>, name: string, left: TableKind, right: TableKind, s: JoinStrategy)
    requires DistinctEntries(entries)
    ensures Lookup(entries, name, left, right) == Some(s) <==> Entry(name, left, right, s) in entries
    ensures Lookup(entries, name, left, right).None? <==>
              forall e :: e in entries ==> !SameKey(e, name, left, right)
  {
    if |entries| > 0 {
      LookupFindsEntry(entries[1..], name, left, right, s);
    }
  }

  /** The twelve triples are pairwise distinct, so at most one clause applies to any
      triple. Each entry is told apart by its name's length and first letter and by
      its left table. */
  lemma RegistryDistinct()
    ensures DistinctEntries(Registry)
  {
    var sigs := [(6, 'a', Film), (5, 'f', Actor), (6, 's', Film), (5, 'f', Store), (8, 'l', Film),
                 (17, 'o', Film), (11, 'i', Store), (4, 'f', Inventory), (10, 'c', Film),
                 (5, 'f', Category), (15, 'p', Category), (13, 's', Category)];
    assert forall i :: 0 <= i < |Registry| ==>
      |Registry[i].name| > 0 && sigs[i] == (|Registry[i].name|, Registry[i].name[0], Registry[i].left);
    forall i, j | 0 <= i < j < |Registry|
      ensures !SameKey(Registry[j], Registry[i].name, Registry[i].left, Registry[i].right)
    {
      assert sigs[i] != sigs[j];
    }
  }

  /** The join predicate a strategy stands for, between the outer table `left` and
      the inner table `right`. */
  function JoinCondition(s: JoinStrategy, left: Source, right: Source): Condition {
    match s
    case KeyEquality(lc, rc) => Eq(Col(left, lc), Col(right, rc))
    case ThroughJunction(j, lc, jl, jr, rc) =>
      Exists(j, And(Eq(Col(left, lc), Col(JunctionTable(j), jl)),
                    Eq(Col(JunctionTable(j), jr), Col(right, rc))))
  }

  /** The registry answers a triple exactly when one of its entries carries it, and
      then with that entry's strategy. */
  lemma RegistryLookup(name: string, left: TableKind, right: TableKind)
    ensures Lookup(Registry, name, left, right).Some? <==>
              exists e :: e in Registry && SameKey(e, name, left, right)
    ensures forall s :: Entry(name, left, right, s) in Registry ==> Lookup(Registry, name, left, right) == Some(s)
  {
    RegistryDistinct();
    forall s | Entry(name, left, right, s) in Registry
      ensures Lookup(Registry, name, left, right) == Some(s)
    {
      LookupFindsEntry(Registry, name, left, right, s);
    }
    LookupFindsEntry(Registry, name, left, right, KeyEquality("", ""));
  }

  /** `getConditionForRelationship(name, left, right)`: a predicate for one of the
      twelve registered triples, `null` (`None`) for every other triple. */
  function GetConditionForRelationship(name: string, left: TableRef, right: TableRef): (r: Option<Condition>)
    ensures r.Some? <==> exists e :: e in Registry && SameKey(e, name, left.def.kind, right.def.kind)
    ensures forall s :: Entry(name, left.def.kind, right.def.kind, s) in Registry ==>
              r == Some(JoinCondition(s, Alias(left.alias), Alias(right.alias)))
  {
    RegistryLookup(name, left.def.kind, right.def.kind);
    match Lookup(Registry, name, left.def.kind, right.def.kind)
    case None => None
    case Some(s) => Some(JoinCondition(s, Alias(left.alias), Alias(right.alias)))
  }

  /** The strategy with its two sides swapped. */
  function Mirror(s: JoinStrategy): JoinStrategy {
    match s
    case KeyEquality(lc, rc) => KeyEquality(rc, lc)
    case ThroughJunction(j, lc, jl, jr, rc) => ThroughJunction(j, rc, jr, jl, lc)
  }

  /** Every junction relation, and `parent_category`, has a registered counterpart
      from the other side that uses the same table with the sides swapped. */
  lemma MirrorEntries()
    ensures Entry("films", Actor, Film, Mirror(Registry[0].strategy)) in Registry
    ensures Entry("films", Store, Film, Mirror(Registry[2].strategy)) in Registry
    ensures Entry("films", Category, Film, Mirror(Registry[8].strategy)) in Registry
    ensures Entry("subcategories", Category, Category, Mirror(Registry[10].strategy)) in Registry
    ensures Registry[0].strategy.ThroughJunction? && Registry[2].strategy.ThroughJunction?
    ensures Registry[8].strategy.ThroughJunction? && Registry[10].strategy.KeyEquality?
  {
    assert Registry[1] == Entry("films", Actor, Film, Mirror(Registry[0].strategy));
    assert Registry[3] == Entry("films", Store, Film, Mirror(Registry[2].strategy));
    assert Registry[9] == Entry("films", Category, Film, Mirror(Registry[8].strategy));
    assert Registry[11] == Entry("subcategories", Category, Category, Mirror(Registry[10].strategy));
  }

  /** A mirrored strategy relates the same pairs of rows: the predicate from `a` to `b`
      holds exactly when its mirror from `b` to `a` does. */
  lemma MirrorSameRows(s: JoinStrategy, a: Source, b: Source, env: Env, db: Db, lt: (SqlValue, SqlValue) -> bool)
    requires a.Alias? && b.Alias?
    ensures Holds(JoinCondition(s, a, b), env, db, lt) <==> Holds(JoinCondition(Mirror(s), b, a), env, db, lt)
  {
    match s
    case KeyEquality(lc, rc) =>
    case ThroughJunction(j, lc, jl, jr, rc) =>
      var rows := if j in db then db[j] else [];
      var w1 := And(Eq(Col(a, lc), Col(JunctionTable(j), jl)), Eq(Col(JunctionTable(j), jr), Col(b, rc)));
      var w2 := And(Eq(Col(b, rc), Col(JunctionTable(j), jr)), Eq(Col(JunctionTable(j), jl), Col(a, lc)));
      forall i | 0 <= i < |rows|
        ensures Holds(w1, env[JunctionTable(j) := rows[i]], db, lt) <==> Holds(w2, env[JunctionTable(j) := rows[i]], db, lt)
      {
        var e := env[JunctionTable(j) := rows[i]];
        assert Holds(w1, e, db, lt) <==>
          Holds(Eq(Col(a, lc), Col(JunctionTable(j), jl)), e, db, lt) && Holds(Eq(Col(JunctionTable(j), jr), Col(b, rc)), e, db, lt);
        assert Holds(w2, e, db, lt) <==>
          Holds(Eq(Col(b, rc), Col(JunctionTable(j), jr)), e, db, lt) && Holds(Eq(Col(JunctionTable(j), jl), Col(a, lc)), e, db, lt);
      }
      assert JoinCondition(s, a, b) == Exists(j, w1);
      assert JoinCondition(Mirror(s), b, a) == Exists(j, w2);
      if Holds(Exists(j, w1), env, db, lt) {
        var i :| 0 <= i < |rows| && Holds(w1, env[JunctionTable(j) := rows[i]], db, lt);
        assert Holds(w2, env[JunctionTable(j) := rows[i]], db, lt);
        assert Holds(Exists(j, w2), env, db, lt);
      }
      if Holds(Exists(j, w2), env, db, lt) {
        var i :| 0 <= i < |rows| && Holds(w2, env[JunctionTable(j) := rows[i]], db, lt);
        assert Holds(w1, env[JunctionTable(j) := rows[i]], db, lt);
        assert Holds(Exists(j, w1), env, db, lt);
      }
  }

  /** `language` and `original_language` both point at `Language.LANGUAGE_ID`, from
      `LANGUAGE_ID` and `ORIGINAL_LANGUAGE_ID` of the film. */
  lemma LanguageRelations(left: TableRef, right: TableRef)
    requires left.def.kind == Film && right.def.kind == Language
    ensures GetConditionForRelationship("language", left, right) ==
              Some(Eq(Column(left, "language_id"), Column(right, "language_id")))
    ensures GetConditionForRelationship("original_language", left, right) ==
              Some(Eq(Column(left, "original_language_id"), Column(right, "language_id")))
  {
    assert Registry[4] == Entry("language", Film, Language, KeyEquality("language_id", "language_id"));
    assert Registry[5] == Entry("original_language", Film, Language, KeyEquality("original_language_id", "language_id"));
  }
}
