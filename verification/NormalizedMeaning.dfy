/**
 What normalization keeps: the result of a query, as long as no empty junction is
 dropped where it decided the outcome.
 */
module NormalizedMeaning {
  import opened Base
  import opened QueryAst
  import opened QuerySemantics
  import opened Normalizing

  // ---- What flattening drops -------------------------------------------------

  /** Junctions all the way down: nothing is compared. */
  predicate Vacuous(c: Condition) {
    (c.And? || c.Or?) && forall c' | c' in c.conditions :: Vacuous(c')
  }

  /** The constant a vacuous condition stands for. */
  predicate VacuousValue(c: Condition) {
    (c.And? && forall c' | c' in c.conditions :: VacuousValue(c'))
    || (c.Or? && exists c' | c' in c.conditions :: VacuousValue(c'))
  }

  /** A truth value for every comparison and subquery. */
  type Valuation = Condition -> bool

  /** What a condition comes to once its comparisons and subqueries have their values. */
  predicate Eval(v: Valuation, c: Condition) {
    match c
    case And(cs) => forall c' | c' in cs :: Eval(v, c')
    case Or(cs) => exists c' | c' in cs :: Eval(v, c')
    case _ => v(c)
  }

  /** An absent condition is true. */
  predicate EvalWhere(v: Valuation, where_: Option<Condition>) {
    where_.Some? ==> Eval(v, where_.value)
  }

  /** The reading flattening gives to a condition: vacuous children do not count. */
  predicate NeutralEval(v: Valuation, c: Condition) {
    match c
    case And(cs) => forall c' | c' in cs && !Vacuous(c') :: NeutralEval(v, c')
    case Or(cs) => exists c' | c' in cs && !Vacuous(c') :: NeutralEval(v, c')
    case _ => v(c)
  }

  /** The values comparisons and subqueries have on a row of a database. */
  function OnRow(s: Semantics, db: Database, row: Row): Valuation {
    c => Holds(s, db, c, row)
  }

  lemma {:induction false} HoldsIsEval(s: Semantics, db: Database, c: Condition, row: Row)
    ensures Holds(s, db, c, row) == Eval(OnRow(s, db, row), c)
  {
    if c.And? || c.Or? {
      forall c' | c' in c.conditions ensures Holds(s, db, c', row) == Eval(OnRow(s, db, row), c') {
        HoldsIsEval(s, db, c', row);
      }
    }
  }

  lemma EvalOfConcat(v: Valuation, isAnd: bool, a: seq<Condition>, b: seq<Condition>)
    ensures Eval(v, Junction(isAnd, a + b)) == if isAnd then Eval(v, And(a)) && Eval(v, And(b)) else Eval(v, Or(a)) || Eval(v, Or(b))
  {
    assert forall c :: c in a + b <==> c in a || c in b;
  }

  lemma NeutralFirst(v: Valuation, isAnd: bool, cs: seq<Condition>)
    requires cs != []
    ensures var first := if Vacuous(cs[0]) then isAnd else NeutralEval(v, cs[0]);
            var rest := NeutralEval(v, Junction(isAnd, cs[1..]));
            NeutralEval(v, Junction(isAnd, cs)) == if isAnd then first && rest else first || rest
  {
    assert cs == [cs[0]] + cs[1..];
    assert forall c :: c in cs <==> c == cs[0] || c in cs[1..];
  }

  /** For every condition: flattening drops it exactly when it is vacuous, and otherwise evaluates to its neutral reading. */
  lemma {:induction false} FlattenReadsNeutrally(v: Valuation, c: Condition)
    ensures Flatten(c).None? <==> Vacuous(c)
    ensures Flatten(c).Some? ==> Eval(v, Flatten(c).value) == NeutralEval(v, c)
    decreases c, 2
  {
    if c.And? || c.Or? {
      PartsReadNeutrally(v, Some(c.And?), c.And?, c.conditions);
      var parts := FlatParts(Some(c.And?), c.conditions);
      assert Flatten(c) == Collapse(c.And?, parts);
      if |parts| == 1 {
        assert parts == [parts[0]];
      }
    }
  }

  lemma {:induction false} PartsReadNeutrally(v: Valuation, merge: Option<bool>, isAnd: bool, cs: seq<Condition>)
    requires merge == None || merge == Some(isAnd)
    ensures FlatParts(merge, cs) == [] <==> forall c | c in cs :: Vacuous(c)
    ensures Eval(v, Junction(isAnd, FlatParts(merge, cs))) == NeutralEval(v, Junction(isAnd, cs))
    decreases cs, 1
  {
    if cs != [] {
      PartReadsNeutrally(v, merge, isAnd, cs[0]);
      PartsReadNeutrally(v, merge, isAnd, cs[1..]);
      EvalOfConcat(v, isAnd, FlatPart(merge, cs[0]), FlatParts(merge, cs[1..]));
      NeutralFirst(v, isAnd, cs);
      assert forall c :: c in cs <==> c == cs[0] || c in cs[1..];
    }
  }

  lemma {:induction false} PartReadsNeutrally(v: Valuation, merge: Option<bool>, isAnd: bool, c: Condition)
    requires merge == None || merge == Some(isAnd)
    ensures FlatPart(merge, c) == [] <==> Vacuous(c)
    ensures Eval(v, Junction(isAnd, FlatPart(merge, c))) == if Vacuous(c) then isAnd else NeutralEval(v, c)
    decreases c, 3
  {
    if Merged(merge, c) {
      PartsReadNeutrally(v, None, isAnd, c.conditions);
    } else {
      FlattenReadsNeutrally(v, c);
    }
  }

  // ---- When dropping is harmless ---------------------------------------------

  /** Every vacuous child stands for the neutral constant of its junction: true under `And`, false under `Or`. */
  predicate Balanced(c: Condition) {
    match c
    case And(cs) => forall c' | c' in cs :: if Vacuous(c') then VacuousValue(c') else Balanced(c')
    case Or(cs) => forall c' | c' in cs :: if Vacuous(c') then !VacuousValue(c') else Balanced(c')
    case _ => true
  }

  /** A whole `where`: absent is true, so a vacuous one must be true as well. */
  predicate BalancedWhere(c: Condition) {
    if Vacuous(c) then VacuousValue(c) else Balanced(c)
  }

  predicate HarmlessQuery(q: Ast)
    decreases q, 0
  {
    && (q.where_.Some? ==> BalancedWhere(q.where_.value) && HarmlessSubqueries(q.where_.value))
    && (q.related.Related? ==> forall hop | hop in q.related.hops :: HarmlessHop(hop))
  }

  predicate HarmlessHop(hop: CorrelatedSubquery)
    decreases hop, 0
  {
    HarmlessQuery(hop.subquery)
  }

  predicate HarmlessSubqueries(c: Condition)
    decreases c, 0
  {
    match c
    case Simple(_, _, _) => true
    case And(cs) => forall c' | c' in cs :: HarmlessSubqueries(c')
    case Or(cs) => forall c' | c' in cs :: HarmlessSubqueries(c')
    case Subquery(related, _, _, _, _) => HarmlessHop(related)
  }

  lemma {:induction false} VacuousIsConstant(v: Valuation, c: Condition)
    requires Vacuous(c)
    ensures Eval(v, c) == VacuousValue(c)
  {
    forall c' | c' in c.conditions ensures Eval(v, c') == VacuousValue(c') {
      VacuousIsConstant(v, c');
    }
  }

  lemma {:induction false} BalancedReadsNeutrally(v: Valuation, c: Condition)
    requires Balanced(c)
    ensures NeutralEval(v, c) == Eval(v, c)
  {
    if c.And? || c.Or? {
      forall c' | c' in c.conditions
        ensures Vacuous(c') ==> Eval(v, c') == c.And?
        ensures !Vacuous(c') ==> Eval(v, c') == NeutralEval(v, c')
      {
        if Vacuous(c') {
          VacuousIsConstant(v, c');
        } else {
          BalancedReadsNeutrally(v, c');
        }
      }
    }
  }

  /** Flattening a balanced `where` keeps its value, whatever its comparisons and subqueries say. */
  lemma FlattenKeepsValue(v: Valuation, c: Condition)
    requires BalancedWhere(c)
    ensures EvalWhere(v, Flatten(c)) == Eval(v, c)
  {
    FlattenReadsNeutrally(v, c);
    if Vacuous(c) {
      VacuousIsConstant(v, c);
    } else {
      BalancedReadsNeutrally(v, c);
    }
  }

  /** Flattening a balanced `where` keeps the rows it accepts. */
  lemma FlattenPreservesMeaning(s: Semantics, db: Database, c: Condition, row: Row)
    requires BalancedWhere(c)
    ensures WhereHolds(s, db, Flatten(c), row) == Holds(s, db, c, row)
  {
    FlattenKeepsValue(OnRow(s, db, row), c);
    HoldsIsEval(s, db, c, row);
    if Flatten(c).Some? {
      HoldsIsEval(s, db, Flatten(c).value, row);
    }
  }

  lemma {:induction false} PartsKeepSubqueries(merge: Option<bool>, cs: seq<Condition>)
    requires forall c | c in cs :: HarmlessSubqueries(c)
    ensures forall c | c in FlatParts(merge, cs) :: HarmlessSubqueries(c)
    decreases cs, 1
  {
    if cs != [] {
      PartKeepsSubqueries(merge, cs[0]);
      PartsKeepSubqueries(merge, cs[1..]);
      assert forall c :: c in FlatParts(merge, cs) <==> c in FlatPart(merge, cs[0]) || c in FlatParts(merge, cs[1..]);
    }
  }

  lemma {:induction false} PartKeepsSubqueries(merge: Option<bool>, c: Condition)
    requires HarmlessSubqueries(c)
    ensures forall p | p in FlatPart(merge, c) :: HarmlessSubqueries(p)
    decreases c, 3
  {
    if Merged(merge, c) {
      PartsKeepSubqueries(None, c.conditions);
    } else {
      FlattenKeepsSubqueries(c);
    }
  }

  lemma {:induction false} FlattenKeepsSubqueries(c: Condition)
    requires HarmlessSubqueries(c)
    ensures Flatten(c).Some? ==> HarmlessSubqueries(Flatten(c).value)
    decreases c, 2
  {
    if c.And? || c.Or? {
      PartsKeepSubqueries(Some(c.And?), c.conditions);
    }
  }

  // ---- Related hops in any order ---------------------------------------------

  lemma {:induction false} RunHopsOfConcat(s: Semantics, db: Database, a: seq<CorrelatedSubquery>, b: seq<CorrelatedSubquery>, row: Row)
    ensures RunHops(s, db, a + b, row) == RunHops(s, db, a, row) + RunHops(s, db, b, row)
  {
    if a == [] {
      assert a + b == b;
    } else {
      assert (a + b)[0] == a[0] && (a + b)[1..] == a[1..] + b;
      calc {
        RunHops(s, db, a + b, row);
        multiset{RunHop(s, db, a[0], row)} + RunHops(s, db, a[1..] + b, row);
        { RunHopsOfConcat(s, db, a[1..], b, row); }
        multiset{RunHop(s, db, a[0], row)} + RunHops(s, db, a[1..], row) + RunHops(s, db, b, row);
      }
    }
  }

  lemma {:induction false} RunHopsInAnyOrder(s: Semantics, db: Database, a: seq<CorrelatedSubquery>, b: seq<CorrelatedSubquery>, row: Row)
    requires multiset(a) == multiset(b)
    ensures RunHops(s, db, a, row) == RunHops(s, db, b, row)
  {
    if a == [] {
      assert |multiset(b)| == 0;
    } else {
      var j := TakeFirst(a, b);
      RunHopsInAnyOrder(s, db, a[1..], b[..j] + b[j + 1..], row);
      RunHopsMoved(s, db, b[..j], b[j], b[j + 1..], row);
    }
  }

  /** One hop adds its result wherever it stands. */
  lemma RunHopsMoved(s: Semantics, db: Database, a: seq<CorrelatedSubquery>, hop: CorrelatedSubquery, b: seq<CorrelatedSubquery>, row: Row)
    ensures RunHops(s, db, a + [hop] + b, row) == multiset{RunHop(s, db, hop, row)} + RunHops(s, db, a + b, row)
  {
    RunHopsOfConcat(s, db, a, b, row);
    RunHopsOfConcat(s, db, a + [hop], b, row);
    RunHopsOfConcat(s, db, a, [hop], row);
    assert [hop][1..] == [];
  }

  // ---- Normalization keeps the result ----------------------------------------

  lemma {:induction false} NormalizedWhereHolds(sorter: Sorter, s: Semantics, db: Database, c: Condition, row: Row)
    requires Permutes(sorter) && HarmlessSubqueries(c)
    ensures Holds(s, db, NormalizeWhere(sorter, c), row) == Holds(s, db, c, row)
    decreases Size(c), 1, 0
  {
    match c
    case Simple(_, _, _) =>
    case Subquery(related, _, _, _, _) =>
      assert Size(c) == 1 + SizeHop(related) == 2 + SizeQuery(related.subquery);
      NormalizedRows(sorter, s, db, related.subquery, Below(related.correlation, row));
    case _ =>
      NormalizedAllHold(sorter, s, db, c.conditions, row);
      NormalizeAllAt(sorter, c.conditions);
      var ns := NormalizeAll(sorter, c.conditions);
      SameJunction(s, db, c.And?, ns, c.conditions, row);
      SameMembers(s, db, c.And?, sorter.conditions(ns), ns, row);
  }

  lemma SameMembers(s: Semantics, db: Database, isAnd: bool, a: seq<Condition>, b: seq<Condition>, row: Row)
    requires multiset(a) == multiset(b)
    ensures Holds(s, db, Junction(isAnd, a), row) == Holds(s, db, Junction(isAnd, b), row)
  {
    assert forall c :: c in a <==> c in multiset(a);
    assert forall c :: c in b <==> c in multiset(b);
  }

  lemma SameJunction(s: Semantics, db: Database, isAnd: bool, a: seq<Condition>, b: seq<Condition>, row: Row)
    requires |a| == |b| && forall i | 0 <= i < |a| :: Holds(s, db, a[i], row) == Holds(s, db, b[i], row)
    ensures Holds(s, db, Junction(isAnd, a), row) == Holds(s, db, Junction(isAnd, b), row)
  {
  }

  lemma {:induction false} NormalizedAllHold(sorter: Sorter, s: Semantics, db: Database, cs: seq<Condition>, row: Row)
    requires Permutes(sorter) && forall c | c in cs :: HarmlessSubqueries(c)
    ensures forall i | 0 <= i < |cs| :: Holds(s, db, NormalizeWhere(sorter, cs[i]), row) == Holds(s, db, cs[i], row)
    decreases SizeAll(cs), 2, |cs|
  {
    if cs != [] {
      NormalizedWhereHolds(sorter, s, db, cs[0], row);
      NormalizedAllHold(sorter, s, db, cs[1..], row);
      assert forall i | 0 < i < |cs| :: cs[i] == cs[1..][i - 1];
    }
  }

  lemma {:induction false} NormalizedSelect(sorter: Sorter, s: Semantics, db: Database, q: Ast, parent: Parent, rows: seq<Row>)
    requires Permutes(sorter) && HarmlessQuery(q)
    ensures Select(s, db, NormalizeQuery(sorter, q), parent, rows) == Select(s, db, q, parent, rows)
    decreases SizeQuery(q), 0, |rows|
  {
    if rows != [] {
      NormalizedSelect(sorter, s, db, q, parent, rows[1..]);
      if q.where_.Some? {
        FlattenPreservesMeaning(s, db, q.where_.value, rows[0]);
        FlattenKeepsSubqueries(q.where_.value);
        FlattenShrinks(q.where_.value);
        if Flatten(q.where_.value).Some? {
          NormalizedWhereHolds(sorter, s, db, Flatten(q.where_.value).value, rows[0]);
        }
      }
    }
  }

  lemma {:induction false} NormalizedRows(sorter: Sorter, s: Semantics, db: Database, q: Ast, parent: Parent)
    requires Permutes(sorter) && HarmlessQuery(q)
    ensures Rows(s, db, NormalizeQuery(sorter, q), parent) == Rows(s, db, q, parent)
    decreases SizeQuery(q), 1, 0
  {
    NormalizedSelect(sorter, s, db, q, parent, TableRows(db, q.table));
  }

  lemma {:induction false} NormalizedHops(sorter: Sorter, s: Semantics, db: Database, hops: seq<CorrelatedSubquery>, row: Row)
    requires Permutes(sorter) && forall hop | hop in hops :: HarmlessHop(hop)
    ensures RunHops(s, db, NormalizeHops(sorter, hops), row) == RunHops(s, db, hops, row)
    decreases SizeHops(hops), 4, |hops|
  {
    if hops != [] {
      NormalizedHop(sorter, s, db, hops[0], row);
      NormalizedHops(sorter, s, db, hops[1..], row);
    }
  }

  lemma {:induction false} NormalizedHop(sorter: Sorter, s: Semantics, db: Database, hop: CorrelatedSubquery, row: Row)
    requires Permutes(sorter) && HarmlessHop(hop)
    ensures RunHop(s, db, NormalizeHop(sorter, hop), row) == RunHop(s, db, hop, row)
    decreases SizeHop(hop), 3, 0
  {
    NormalizationKeepsResult(sorter, s, db, hop.subquery, Below(hop.correlation, row));
  }

  lemma {:induction false} NormalizedAttach(sorter: Sorter, s: Semantics, db: Database, q: Ast, rows: seq<Row>)
    requires Permutes(sorter) && HarmlessQuery(q)
    ensures Attach(s, db, NormalizeQuery(sorter, q), rows) == Attach(s, db, q, rows)
    decreases SizeQuery(q), 2, |rows|
  {
    if rows != [] {
      NormalizedAttach(sorter, s, db, q, rows[1..]);
      if q.related.Related? {
        var ns := NormalizeHops(sorter, q.related.hops);
        NormalizedHops(sorter, s, db, q.related.hops, rows[0]);
        RunHopsInAnyOrder(s, db, sorter.related(ns), ns, rows[0]);
      }
    }
  }

  /** Whatever rearrangement the sorts make, a normalized query returns what the query it came from returns. */
  lemma {:induction false} NormalizationKeepsResult(sorter: Sorter, s: Semantics, db: Database, q: Ast, parent: Parent)
    requires Permutes(sorter) && HarmlessQuery(q)
    ensures Run(s, db, NormalizeQuery(sorter, q), parent) == Run(s, db, q, parent)
    decreases SizeQuery(q), 3, 0
  {
    NormalizedRows(sorter, s, db, q, parent);
    NormalizedAttach(sorter, s, db, q, Rows(s, db, q, parent));
  }

  /** No empty junction anywhere in a condition. */
  predicate NoEmptyJunction(c: Condition) {
    (c.And? || c.Or?) ==> c.conditions != [] && forall c' | c' in c.conditions :: NoEmptyJunction(c')
  }

  /** A condition without empty junctions is balanced, so normalization keeps it. */
  lemma {:induction false} NonEmptyIsBalanced(c: Condition)
    requires NoEmptyJunction(c)
    ensures !Vacuous(c) && Balanced(c)
  {
    if c.And? || c.Or? {
      forall c' | c' in c.conditions ensures !Vacuous(c') && Balanced(c') {
        NonEmptyIsBalanced(c');
      }
      assert c.conditions[0] in c.conditions;
    }
  }

  /** No empty junction anywhere in a query, its subqueries and related queries included. */
  predicate NoEmptyIn(q: Ast)
    decreases q, 0
  {
    && (q.where_.Some? ==> NoEmptyJunction(q.where_.value) && NoEmptyBelow(q.where_.value))
    && (q.related.Related? ==> forall hop | hop in q.related.hops :: NoEmptyInHop(hop))
  }

  predicate NoEmptyInHop(hop: CorrelatedSubquery)
    decreases hop, 0
  {
    NoEmptyIn(hop.subquery)
  }

  predicate NoEmptyBelow(c: Condition)
    decreases c, 0
  {
    match c
    case Simple(_, _, _) => true
    case And(cs) => forall c' | c' in cs :: NoEmptyBelow(c')
    case Or(cs) => forall c' | c' in cs :: NoEmptyBelow(c')
    case Subquery(related, _, _, _, _) => NoEmptyInHop(related)
  }

  lemma {:induction false} NonEmptySubqueriesAreHarmless(c: Condition)
    requires NoEmptyBelow(c)
    ensures HarmlessSubqueries(c)
    decreases c, 0
  {
    match c
    case Simple(_, _, _) =>
    case Subquery(related, _, _, _, _) => NonEmptyHopIsHarmless(related);
    case _ =>
      forall c' | c' in c.conditions ensures HarmlessSubqueries(c') {
        NonEmptySubqueriesAreHarmless(c');
      }
  }

  lemma {:induction false} NonEmptyHopIsHarmless(hop: CorrelatedSubquery)
    requires NoEmptyInHop(hop)
    ensures HarmlessHop(hop)
    decreases hop, 0
  {
    NonEmptyIsHarmless(hop.subquery);
  }

  lemma {:induction false} NonEmptyIsHarmless(q: Ast)
    requires NoEmptyIn(q)
    ensures HarmlessQuery(q)
    decreases q, 0
  {
    if q.where_.Some? {
      NonEmptyIsBalanced(q.where_.value);
      NonEmptySubqueriesAreHarmless(q.where_.value);
    }
    if q.related.Related? {
      forall hop | hop in q.related.hops ensures HarmlessHop(hop) {
        NonEmptyHopIsHarmless(hop);
      }
    }
  }

  /** Normalization keeps the whole result of a query without empty junctions. */
  lemma NonEmptyKeepsResult(sorter: Sorter, s: Semantics, db: Database, q: Ast, parent: Parent)
    requires Permutes(sorter) && NoEmptyIn(q)
    ensures Run(s, db, NormalizeQuery(sorter, q), parent) == Run(s, db, q, parent)
  {
    NonEmptyIsHarmless(q);
    NormalizationKeepsResult(sorter, s, db, q, parent);
  }

  /** A denied query and an unrestricted one normalize to the same form: `Or[]` is false, its absence true. */
  lemma DeniedNormalizesToUnrestricted(sorter: Sorter, s: Semantics, db: Database, table: string, row: Row)
    ensures var denied := TableQuery(table).(where_ := Some(Or([])));
            && NormalizeQuery(sorter, denied) == NormalizeQuery(sorter, TableQuery(table))
            && !WhereHolds(s, db, denied.where_, row)
            && WhereHolds(s, db, NormalizeQuery(sorter, denied).where_, row)
            && !HarmlessQuery(denied)
  {
    var denied := TableQuery(table).(where_ := Some(Or([])));
    assert Flatten(Or([])) == Collapse(false, FlatParts(Some(false), [])) == None;
  }
}
