/**
 The read set of a query: `referenced_tables` of `crates/zero-cache-protocol/src/ast.rs`,
 which decides whether a commit can invalidate a live query.
 */
module ReferencedTables {
  import opened Base
  import opened QueryAst
  import opened QuerySemantics

  /** Every table the query reads: its own, those of its related hops and those of its correlated conditions. */
  function QueryTables(q: Ast): set<string>
    decreases q, 1
  {
    {q.table}
    + (if q.related.Related? then HopsTables(q.related.hops) else {})
    + (if q.where_.Some? then ConditionTables(q.where_.value) else {})
  }

  function HopsTables(hops: seq<CorrelatedSubquery>): set<string>
    decreases hops, 0
  {
    if hops == [] then {} else HopTables(hops[0]) + HopsTables(hops[1..])
  }

  function HopTables(hop: CorrelatedSubquery): set<string>
    decreases hop, 0
  {
    QueryTables(hop.subquery)
  }

  function ConditionTables(c: Condition): set<string>
    decreases c, 1
  {
    match c
    case Simple(_, _, _) => {}
    case And(cs) => ConditionsTables(cs)
    case Or(cs) => ConditionsTables(cs)
    case Subquery(related, _, _, _, _) => HopTables(related)
  }

  function ConditionsTables(cs: seq<Condition>): set<string>
    decreases cs, 0
  {
    if cs == [] then {} else ConditionTables(cs[0]) + ConditionsTables(cs[1..])
  }

  // ---- Collecting the set ----------------------------------------------------

  /** Adds the tables a query reads to the set collected so far. */
  method CollectQuery(q: Ast, collected: set<string>) returns (out: set<string>)
    ensures out == collected + QueryTables(q)
    decreases q, 1
  {
    out := collected + {q.table};
    if q.related.Related? {
      var hops := q.related.hops;
      var i := 0;
      while i < |hops|
        invariant 0 <= i <= |hops|
        invariant out + HopsTables(hops[i..]) == collected + {q.table} + HopsTables(hops)
      {
        assert hops[i] == hops[i..][0] && hops[i..][1..] == hops[i + 1..];
        out := CollectHop(hops[i], out);
        i := i + 1;
      }
    }
    if q.where_.Some? {
      out := CollectCondition(q.where_.value, out);
    }
  }

  method CollectHop(hop: CorrelatedSubquery, collected: set<string>) returns (out: set<string>)
    ensures out == collected + HopTables(hop)
    decreases hop, 0
  {
    out := CollectQuery(hop.subquery, collected);
  }

  method CollectCondition(c: Condition, collected: set<string>) returns (out: set<string>)
    ensures out == collected + ConditionTables(c)
    decreases c, 1
  {
    out := collected;
    match c {
      case Simple(_, _, _) =>
      case Subquery(related, _, _, _, _) =>
        out := CollectHop(related, out);
      case _ =>
        var cs := c.conditions;
        var i := 0;
        while i < |cs|
          invariant 0 <= i <= |cs|
          invariant out + ConditionsTables(cs[i..]) == collected + ConditionsTables(cs)
        {
          assert cs[i] == cs[i..][0] && cs[i..][1..] == cs[i + 1..];
          out := CollectCondition(cs[i], out);
          i := i + 1;
        }
    }
  }

  // ---- A commit that touches none of them changes nothing --------------------

  predicate AgreeOn(db: Database, db': Database, tables: set<string>) {
    forall t | t in tables :: TableRows(db, t) == TableRows(db', t)
  }

  lemma {:induction false} ConditionsTablesContain(cs: seq<Condition>, i: nat)
    requires i < |cs|
    ensures ConditionTables(cs[i]) <= ConditionsTables(cs)
  {
    if i > 0 {
      ConditionsTablesContain(cs[1..], i - 1);
    }
  }

  lemma {:induction false} SameHolds(s: Semantics, db: Database, db': Database, c: Condition, row: Row)
    requires AgreeOn(db, db', ConditionTables(c))
    ensures Holds(s, db, c, row) == Holds(s, db', c, row)
    decreases c, 0, 0
  {
    match c
    case Simple(_, _, _) =>
    case Subquery(related, _, _, _, _) =>
      assert ConditionTables(c) == HopTables(related) == QueryTables(related.subquery);
      SameRows(s, db, db', related.subquery, Below(related.correlation, row));
    case _ =>
      forall i | 0 <= i < |c.conditions|
        ensures Holds(s, db, c.conditions[i], row) == Holds(s, db', c.conditions[i], row)
      {
        ConditionsTablesContain(c.conditions, i);
        SameHolds(s, db, db', c.conditions[i], row);
      }
  }

  lemma {:induction false} SameSelect(s: Semantics, db: Database, db': Database, q: Ast, parent: Parent, rows: seq<Row>)
    requires AgreeOn(db, db', QueryTables(q))
    ensures Select(s, db, q, parent, rows) == Select(s, db', q, parent, rows)
    decreases q, 0, |rows|
  {
    if rows != [] {
      SameSelect(s, db, db', q, parent, rows[1..]);
      if q.where_.Some? {
        SameHolds(s, db, db', q.where_.value, rows[0]);
      }
    }
  }

  lemma {:induction false} SameRows(s: Semantics, db: Database, db': Database, q: Ast, parent: Parent)
    requires AgreeOn(db, db', QueryTables(q))
    ensures Rows(s, db, q, parent) == Rows(s, db', q, parent)
    decreases q, 1, 0
  {
    SameSelect(s, db, db', q, parent, TableRows(db, q.table));
  }

  lemma {:induction false} SameHops(s: Semantics, db: Database, db': Database, hops: seq<CorrelatedSubquery>, row: Row)
    requires AgreeOn(db, db', HopsTables(hops))
    ensures RunHops(s, db, hops, row) == RunHops(s, db', hops, row)
    decreases hops, 0, 0
  {
    if hops != [] {
      SameHop(s, db, db', hops[0], row);
      SameHops(s, db, db', hops[1..], row);
    }
  }

  lemma {:induction false} SameHop(s: Semantics, db: Database, db': Database, hop: CorrelatedSubquery, row: Row)
    requires AgreeOn(db, db', HopTables(hop))
    ensures RunHop(s, db, hop, row) == RunHop(s, db', hop, row)
    decreases hop, 0, 0
  {
    UntouchedQueryKeepsItsResult(s, db, db', hop.subquery, Below(hop.correlation, row));
  }

  lemma {:induction false} SameAttach(s: Semantics, db: Database, db': Database, q: Ast, rows: seq<Row>)
    requires AgreeOn(db, db', QueryTables(q))
    ensures Attach(s, db, q, rows) == Attach(s, db', q, rows)
    decreases q, 2, |rows|
  {
    if rows != [] {
      SameAttach(s, db, db', q, rows[1..]);
      if q.related.Related? {
        SameHops(s, db, db', q.related.hops, rows[0]);
      }
    }
  }

  /** Two databases that agree on a query's read set give it the same result, at every depth of hops and conditions. */
  lemma {:induction false} UntouchedQueryKeepsItsResult(s: Semantics, db: Database, db': Database, q: Ast, parent: Parent)
    requires AgreeOn(db, db', QueryTables(q))
    ensures Run(s, db, q, parent) == Run(s, db', q, parent)
    decreases q, 3, 0
  {
    SameRows(s, db, db', q, parent);
    SameAttach(s, db, db', q, Rows(s, db, q, parent));
  }

  // ---- No table too many -----------------------------------------------------

  /** The query with one table renamed, wherever it is read. */
  function RenameInQuery(q: Ast, old_: string, new_: string): Ast
    decreases q, 1
  {
    q.(table := if q.table == old_ then new_ else q.table,
       related := if q.related.Related? then Related(RenameInHops(q.related.hops, old_, new_)) else NoRelated,
       where_ := if q.where_.Some? then Some(RenameInCondition(q.where_.value, old_, new_)) else None)
  }

  function RenameInHops(hops: seq<CorrelatedSubquery>, old_: string, new_: string): seq<CorrelatedSubquery>
    decreases hops, 0
  {
    if hops == [] then [] else [RenameInHop(hops[0], old_, new_)] + RenameInHops(hops[1..], old_, new_)
  }

  function RenameInHop(hop: CorrelatedSubquery, old_: string, new_: string): CorrelatedSubquery
    decreases hop, 0
  {
    hop.(subquery := RenameInQuery(hop.subquery, old_, new_))
  }

  function RenameInCondition(c: Condition, old_: string, new_: string): Condition
    decreases c, 1
  {
    match c
    case Simple(_, _, _) => c
    case And(cs) => And(RenameInConditions(cs, old_, new_))
    case Or(cs) => Or(RenameInConditions(cs, old_, new_))
    case Subquery(related, _, _, _, _) => c.(related := RenameInHop(related, old_, new_))
  }

  function RenameInConditions(cs: seq<Condition>, old_: string, new_: string): seq<Condition>
    decreases cs, 0
  {
    if cs == [] then [] else [RenameInCondition(cs[0], old_, new_)] + RenameInConditions(cs[1..], old_, new_)
  }

  lemma SameFirstAndRest<T>(xs: seq<T>, first: T, rest: seq<T>)
    requires xs != []
    ensures [first] + rest == xs <==> first == xs[0] && rest == xs[1..]
  {
    if first == xs[0] && rest == xs[1..] {
      assert [first] + rest == xs;
    } else {
      assert ([first] + rest)[0] == first && ([first] + rest)[1..] == rest;
    }
  }

  /** A table is referenced exactly when renaming it changes the query. */
  lemma {:induction false} ReferencedExactly(q: Ast, old_: string, new_: string)
    requires old_ != new_
    ensures old_ in QueryTables(q) <==> RenameInQuery(q, old_, new_) != q
    decreases q, 1
  {
    if q.related.Related? {
      HopsReferencedExactly(q.related.hops, old_, new_);
    }
    if q.where_.Some? {
      ConditionReferencedExactly(q.where_.value, old_, new_);
    }
  }

  lemma {:induction false} HopsReferencedExactly(hops: seq<CorrelatedSubquery>, old_: string, new_: string)
    requires old_ != new_
    ensures old_ in HopsTables(hops) <==> RenameInHops(hops, old_, new_) != hops
    decreases hops, 0
  {
    if hops != [] {
      HopReferencedExactly(hops[0], old_, new_);
      HopsReferencedExactly(hops[1..], old_, new_);
      SameFirstAndRest(hops, RenameInHop(hops[0], old_, new_), RenameInHops(hops[1..], old_, new_));
    }
  }

  lemma {:induction false} HopReferencedExactly(hop: CorrelatedSubquery, old_: string, new_: string)
    requires old_ != new_
    ensures old_ in HopTables(hop) <==> RenameInHop(hop, old_, new_) != hop
    decreases hop, 0
  {
    ReferencedExactly(hop.subquery, old_, new_);
  }

  lemma {:induction false} ConditionReferencedExactly(c: Condition, old_: string, new_: string)
    requires old_ != new_
    ensures old_ in ConditionTables(c) <==> RenameInCondition(c, old_, new_) != c
    decreases c, 1
  {
    match c
    case Simple(_, _, _) =>
    case Subquery(related, _, _, _, _) => HopReferencedExactly(related, old_, new_);
    case _ => ConditionsReferencedExactly(c.conditions, old_, new_);
  }

  lemma {:induction false} ConditionsReferencedExactly(cs: seq<Condition>, old_: string, new_: string)
    requires old_ != new_
    ensures old_ in ConditionsTables(cs) <==> RenameInConditions(cs, old_, new_) != cs
    decreases cs, 0
  {
    if cs != [] {
      ConditionReferencedExactly(cs[0], old_, new_);
      ConditionsReferencedExactly(cs[1..], old_, new_);
      SameFirstAndRest(cs, RenameInCondition(cs[0], old_, new_), RenameInConditions(cs[1..], old_, new_));
    }
  }
}
