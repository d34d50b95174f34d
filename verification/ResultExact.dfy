/**
 Exactly when normalization keeps the result of a query, where no comparison occurs twice
 and there are no subqueries: related queries, at any depth, are included.
 */
module ResultExact {
  import opened QueryAst
  import opened QuerySemantics
  import opened Normalizing
  import opened NormalizedMeaning
  import opened FlattenExact
  import opened NormalizeExact
  import ReferencedTables

  // ---- All conditions of a query ---------------------------------------------

  /** The conditions of a query and of its related queries. */
  function Wheres(q: Ast): seq<Condition>
    decreases q, 0
  {
    OptionSeq(q.where_) + if q.related.Related? then WheresOfHops(q.related.hops) else []
  }

  function WheresOfHops(hops: seq<CorrelatedSubquery>): seq<Condition>
    decreases hops, 0
  {
    if hops == [] then [] else WheresOfHop(hops[0]) + WheresOfHops(hops[1..])
  }

  function WheresOfHop(hop: CorrelatedSubquery): seq<Condition>
    decreases hop, 0
  {
    Wheres(hop.subquery)
  }

  /** Every one of them has the property. */
  predicate Throughout(q: Ast, p: Condition -> bool)
    decreases q, 0
  {
    && (q.where_.Some? ==> p(q.where_.value))
    && (q.related.Related? ==> forall hop | hop in q.related.hops :: ThroughoutHop(hop, p))
  }

  predicate ThroughoutHop(hop: CorrelatedSubquery, p: Condition -> bool)
    decreases hop, 0
  {
    Throughout(hop.subquery, p)
  }

  lemma {:induction false} ThroughoutIsForAll(q: Ast, p: Condition -> bool)
    ensures Throughout(q, p) <==> forall c | c in Wheres(q) :: p(c)
    decreases q, 1
  {
    if q.related.Related? {
      ThroughoutHops(q.related.hops, p);
    }
    if q.where_.Some? {
      assert q.where_.value in Wheres(q);
    }
  }

  lemma {:induction false} ThroughoutHops(hops: seq<CorrelatedSubquery>, p: Condition -> bool)
    ensures (forall hop | hop in hops :: ThroughoutHop(hop, p)) <==> forall c | c in WheresOfHops(hops) :: p(c)
    decreases hops, 0
  {
    if hops != [] {
      ThroughoutOneHop(hops[0], p);
      ThroughoutHops(hops[1..], p);
      assert forall hop :: hop in hops <==> hop == hops[0] || hop in hops[1..];
      assert forall c :: c in WheresOfHops(hops) <==> c in WheresOfHop(hops[0]) || c in WheresOfHops(hops[1..]);
    }
  }

  lemma {:induction false} ThroughoutOneHop(hop: CorrelatedSubquery, p: Condition -> bool)
    ensures ThroughoutHop(hop, p) <==> forall c | c in WheresOfHop(hop) :: p(c)
    decreases hop, 0
  {
    ThroughoutIsForAll(hop.subquery, p);
  }

  // ---- Full results ----------------------------------------------------------

  /** Nothing is missing: there is a row, and each of its related hops found something full. */
  ghost predicate Full(nodes: seq<Node>) {
    nodes != [] && forall node | node in nodes :: forall hop | hop in node.hops :: Full(hop.nodes)
  }

  /** Every table of the query holds one empty row. */
  predicate OneRowEach(db: Database, q: Ast)
    decreases q, 0
  {
    && TableRows(db, q.table) == [[]]
    && (q.related.Related? ==> forall hop | hop in q.related.hops :: OneRowInHop(db, hop))
  }

  predicate OneRowInHop(db: Database, hop: CorrelatedSubquery)
    decreases hop, 0
  {
    OneRowEach(db, hop.subquery)
  }

  lemma {:induction false} HopMembers(s: Semantics, db: Database, hops: seq<CorrelatedSubquery>, row: Row)
    ensures forall r :: r in RunHops(s, db, hops, row) <==> exists hop :: hop in hops && r == RunHop(s, db, hop, row)
  {
    if hops != [] {
      HopMembers(s, db, hops[1..], row);
      assert forall hop :: hop in hops <==> hop == hops[0] || hop in hops[1..];
    }
  }

  lemma SelectOne(v: Valuation, db: Database, q: Ast, parent: Parent)
    ensures Select(Reading(v), db, q, parent, [[]]) == if WhereHolds(Reading(v), db, q.where_, []) then [[]] else []
  {
    var rows: seq<Row> := [[]];
    assert rows[1..] == [];
    assert Select(Reading(v), db, q, parent, []) == [];
  }

  lemma RunOne(v: Valuation, db: Database, q: Ast, parent: Parent)
    requires TableRows(db, q.table) == [[]]
    ensures Run(Reading(v), db, q, parent)
         == if WhereHolds(Reading(v), db, q.where_, [])
            then [Node([], if q.related.Related? then RunHops(Reading(v), db, q.related.hops, []) else multiset{})]
            else []
  {
    SelectOne(v, db, q, parent);
    var rows: seq<Row> := [[]];
    assert rows[1..] == [];
    assert Attach(Reading(v), db, q, []) == [];
  }

  /** The result is full exactly when all conditions hold. */
  lemma {:induction false} FullExactly(v: Valuation, db: Database, q: Ast, parent: Parent)
    requires OneRowEach(db, q)
    ensures Full(Run(Reading(v), db, q, parent)) <==> Throughout(q, c => Holds(Reading(v), db, c, []))
    decreases q, 0
  {
    var s := Reading(v);
    var p := (c: Condition) => Holds(s, db, c, []);
    RunOne(v, db, q, parent);
    if WhereHolds(s, db, q.where_, []) && q.related.Related? {
      var hops := q.related.hops;
      HopMembers(s, db, hops, []);
      forall hop | hop in hops ensures Full(RunHop(s, db, hop, []).nodes) <==> ThroughoutHop(hop, p) {
        FullExactly(v, db, hop.subquery, Below(hop.correlation, []));
      }
      forall hop | hop in hops ensures RunHop(s, db, hop, []) in RunHops(s, db, hops, []) {
      }
    }
  }

  // ---- What normalization makes of them --------------------------------------

  /** What has to hold of a condition for `p` to hold of its normal form. */
  function Normalized(sorter: Sorter, p: Condition -> bool): Condition -> bool {
    c => Flatten(c).Some? ==> p(NormalizeWhere(sorter, Flatten(c).value))
  }

  lemma {:induction false} NormalizedThroughout(sorter: Sorter, q: Ast, p: Condition -> bool)
    requires Permutes(sorter)
    ensures Throughout(NormalizeQuery(sorter, q), p) <==> Throughout(q, Normalized(sorter, p))
    decreases q, 0
  {
    if q.related.Related? {
      var hops, ns := q.related.hops, NormalizeHops(sorter, q.related.hops);
      SortedMembers(sorter.related(ns), ns);
      NormalizeHopsAt(sorter, hops);
      NormalizedHopsCome(sorter, hops);
      forall hop | hop in hops ensures ThroughoutHop(NormalizeHop(sorter, hop), p) <==> ThroughoutHop(hop, Normalized(sorter, p)) {
        NormalizedThroughout(sorter, hop.subquery, p);
      }
      forall n | n in ns ensures exists hop :: hop in hops && n == NormalizeHop(sorter, hop) {
      }
    }
  }

  lemma {:induction false} NormalizedOneRow(sorter: Sorter, db: Database, q: Ast)
    requires Permutes(sorter) && OneRowEach(db, q)
    ensures OneRowEach(db, NormalizeQuery(sorter, q))
    decreases q, 0
  {
    if q.related.Related? {
      var ns := NormalizeHops(sorter, q.related.hops);
      SortedMembers(sorter.related(ns), ns);
      NormalizedHopsCome(sorter, q.related.hops);
      forall n | n in ns ensures OneRowInHop(db, n) {
        var hop :| hop in q.related.hops && n == NormalizeHop(sorter, hop);
        NormalizedOneRow(sorter, db, hop.subquery);
      }
    }
  }

  lemma {:induction false} NoSubqueriesToHarm(c: Condition)
    requires SubqueryFree(c)
    ensures HarmlessSubqueries(c)
  {
    if c.And? || c.Or? {
      forall c' | c' in c.conditions ensures HarmlessSubqueries(c') {
        NoSubqueriesToHarm(c');
      }
    }
  }

  lemma NormalizedReading(sorter: Sorter, v: Valuation, db: Database, c: Condition)
    requires Permutes(sorter) && SubqueryFree(c)
    ensures Normalized(sorter, d => Holds(Reading(v), db, d, []))(c) <==> Vacuous(c) || NeutralEval(v, c)
  {
    NoSubqueriesToHarm(c);
    FlattenKeepsSubqueries(c);
    ReadingHolds(v, db, c);
    if Flatten(c).Some? {
      NormalizedWhereHolds(sorter, Reading(v), db, Flatten(c).value, []);
    }
  }

  lemma {:induction false} HarmlessThroughout(q: Ast)
    requires Throughout(q, SubqueryFree)
    ensures HarmlessQuery(q) <==> Throughout(q, BalancedWhere)
    decreases q, 0
  {
    if q.where_.Some? {
      NoSubqueriesToHarm(q.where_.value);
    }
    if q.related.Related? {
      forall hop | hop in q.related.hops ensures HarmlessHop(hop) <==> ThroughoutHop(hop, BalancedWhere) {
        assert ThroughoutHop(hop, SubqueryFree);
        HarmlessThroughout(hop.subquery);
      }
    }
  }

  // ---- Exactly when the result is kept ---------------------------------------

  /** Values under which the conditions all hold before normalization or after it, but not both. */
  lemma TellingValues(ws: seq<Condition>) returns (v: Valuation)
    requires AllDifferent(And(ws)) && exists c | c in ws :: !BalancedWhere(c)
    ensures (forall c | c in ws :: Eval(v, c)) != (forall c | c in ws :: Vacuous(c) || NeutralEval(v, c))
  {
    var all := And(ws);
    if Vacuous(all) {
      v := x => true;
      var c :| c in ws && !BalancedWhere(c);
      VacuousIsConstant(v, c);
    } else {
      v := UnbalancedDiffers(all);
      assert Eval(v, all) <==> forall c | c in ws :: Eval(v, c);
      assert NeutralEval(v, all) <==> forall c | c in ws :: Vacuous(c) || NeutralEval(v, c);
    }
  }

  function OneRowDatabase(q: Ast): Database {
    map t | t in ReferencedTables.QueryTables(q) :: [[]]
  }

  lemma {:induction false} OneRowSuffices(db: Database, q: Ast)
    requires ReferencedTables.QueryTables(q) <= db.Keys && forall t | t in db :: db[t] == [[]]
    ensures OneRowEach(db, q)
    decreases q, 0
  {
    if q.related.Related? {
      OneRowSufficesForHops(db, q.related.hops);
    }
  }

  lemma {:induction false} OneRowSufficesForHops(db: Database, hops: seq<CorrelatedSubquery>)
    requires ReferencedTables.HopsTables(hops) <= db.Keys && forall t | t in db :: db[t] == [[]]
    ensures forall hop | hop in hops :: OneRowInHop(db, hop)
    decreases hops, 0
  {
    if hops != [] {
      OneRowSufficesForHop(db, hops[0]);
      OneRowSufficesForHops(db, hops[1..]);
    }
  }

  lemma {:induction false} OneRowSufficesForHop(db: Database, hop: CorrelatedSubquery)
    requires ReferencedTables.HopTables(hop) <= db.Keys && forall t | t in db :: db[t] == [[]]
    ensures OneRowInHop(db, hop)
    decreases hop, 0
  {
    OneRowSuffices(db, hop.subquery);
  }

  /** A query that is not harmless gives another result once normalized, on some database and for some meaning of its comparisons. */
  lemma NormalizationChangesResult(sorter: Sorter, q: Ast) returns (s: Semantics, db: Database)
    requires Permutes(sorter) && Throughout(q, SubqueryFree) && AllDifferent(And(Wheres(q))) && !HarmlessQuery(q)
    ensures Run(s, db, NormalizeQuery(sorter, q), Root) != Run(s, db, q, Root)
  {
    HarmlessThroughout(q);
    ThroughoutIsForAll(q, BalancedWhere);
    ThroughoutIsForAll(q, SubqueryFree);
    var v := TellingValues(Wheres(q));
    s, db := Reading(v), OneRowDatabase(q);
    var p := (c: Condition) => Holds(Reading(v), db, c, []);
    var n := NormalizeQuery(sorter, q);
    OneRowSuffices(db, q);
    NormalizedOneRow(sorter, db, q);
    FullExactly(v, db, q, Root);
    FullExactly(v, db, n, Root);
    ThroughoutIsForAll(q, p);
    NormalizedThroughout(sorter, q, p);
    ThroughoutIsForAll(q, Normalized(sorter, p));
    forall c | c in Wheres(q)
      ensures p(c) == Eval(v, c)
      ensures Normalized(sorter, p)(c) <==> Vacuous(c) || NeutralEval(v, c)
    {
      ReadingHolds(v, db, c);
      NormalizedReading(sorter, v, db, c);
    }
  }

  /** Normalization keeps the result of the query on every database and for every meaning exactly when every dropped junction is neutral. */
  lemma NormalizationKeepsResultExactly(sorter: Sorter, q: Ast)
    requires Permutes(sorter) && Throughout(q, SubqueryFree) && AllDifferent(And(Wheres(q)))
    ensures (forall s, db, parent :: Run(s, db, NormalizeQuery(sorter, q), parent) == Run(s, db, q, parent)) <==> HarmlessQuery(q)
  {
    if HarmlessQuery(q) {
      forall s, db, parent ensures Run(s, db, NormalizeQuery(sorter, q), parent) == Run(s, db, q, parent) {
        NormalizationKeepsResult(sorter, s, db, q, parent);
      }
    } else {
      var s, db := NormalizationChangesResult(sorter, q);
    }
  }
}
